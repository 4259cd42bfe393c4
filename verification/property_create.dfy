/** `createProperty` (src/services/property.service.ts): the main-image
    guard, the image uploads and the stored defaults. The image host is a
    parameter `upload(file, folder)` answering the stored URL, or `None` when
    the upload throws; the uploads made are recorded in order. */
module PropertyCreation {
  import opened Common
  import opened Text
  import opened ErrorHandler
  import opened Catalog
  import opened PropertyService

  const ImagePrefix: string := "data:image"
  const MainFolder: string := "properties-ashinity"
  const ViewsFolder: string := "properties-ashinity/views"
  const InvalidImageText: string := "Invalid main image. Must be a base64 string starting with 'data:image'."
  const MainUploadFailedText: string := "Failed to upload main image to Cloudinary"

  /** The request data; the optional fields are the ones the source gives
      a default (`??`) or tests before use. */
  datatype PropertyInput = PropertyInput(
    sellerId: nat,
    title: string,
    imageSrc: Option<string>,
    views: Option<seq<string>>,
    bedrooms: string,
    rating: Option<real>,
    sf: string,
    reviews: Option<int>,
    price: string,
    location: string,
    overview: Option<map<string, string>>,
    about: Option<seq<string>>)

  datatype Upload = Upload(file: string, folder: string)

  /** The created row or the thrown error, the uploads made, and the catalog after. */
  datatype Creation = Creation(result: Result<Property, AppError>, uploads: seq<Upload>, catalog: Catalog)

  /** A base64 data URL of an image. The empty string is falsy and does not
      start with the prefix either. */
  predicate IsImageData(s: string) {
    StartsWith(s, ImagePrefix)
  }

  /** `views.filter(v => v && v.startsWith("data:image"))`, or nothing when
      `views` is absent or empty. */
  function GalleryImages(views: Option<seq<string>>): (r: seq<string>)
    ensures forall i :: 0 <= i < |r| ==> IsImageData(r[i])
    ensures views.Some? ==> forall i :: 0 <= i < |views.value| && IsImageData(views.value[i]) ==> views.value[i] in r
    ensures views.Some? ==> forall x :: multiset(r)[x] == (if IsImageData(x) then multiset(views.value)[x] else 0)
    ensures views.None? ==> r == []
  {
    match views
    case None => []
    case Some(vs) => ImageEntries(vs)
  }

  /** The image-data entries, in order. */
  function ImageEntries(vs: seq<string>): (r: seq<string>)
    ensures forall i :: 0 <= i < |r| ==> IsImageData(r[i]) && r[i] in vs
    ensures forall i :: 0 <= i < |vs| && IsImageData(vs[i]) ==> vs[i] in r
    ensures |r| <= |vs|
    ensures forall x :: multiset(r)[x] == (if IsImageData(x) then multiset(vs)[x] else 0)
  {
    if |vs| == 0 then []
    else
      assert vs == [vs[0]] + vs[1..];
      if IsImageData(vs[0]) then [vs[0]] + ImageEntries(vs[1..]) else ImageEntries(vs[1..])
  }

  /** The gallery loop: each image is uploaded in turn; one that fails is
      skipped, the others' URLs are kept in order. */
  function UploadGallery(files: seq<string>, upload: (string, string) -> Option<string>): (urls: seq<string>)
    ensures |urls| <= |files|
    ensures |urls| == |files| <==> forall i :: 0 <= i < |files| ==> upload(files[i], ViewsFolder).Some?
    ensures (forall i :: 0 <= i < |files| ==> upload(files[i], ViewsFolder).Some?) ==>
      forall i :: 0 <= i < |files| ==> urls[i] == upload(files[i], ViewsFolder).value
    ensures forall i :: 0 <= i < |urls| ==> exists k :: 0 <= k < |files| && upload(files[k], ViewsFolder) == Some(urls[i])
  {
    if |files| == 0 then []
    else
      var rest := UploadGallery(files[1..], upload);
      assert forall i :: 1 <= i < |files| ==> files[i] == files[1..][i - 1];
      match upload(files[0], ViewsFolder)
      case None => rest
      case Some(url) => [url] + rest
  }

  /** The filter keeps the order: the entries of a concatenation are the
      entries of each part, one after the other. */
  lemma {:induction false} ImageEntriesAppend(a: seq<string>, b: seq<string>)
    ensures ImageEntries(a + b) == ImageEntries(a) + ImageEntries(b)
    decreases |a|
  {
    if |a| == 0 {
      assert a + b == b;
    } else {
      assert (a + b)[1..] == a[1..] + b;
      ImageEntriesAppend(a[1..], b);
    }
  }

  /** The gallery loop over a concatenation is the loop over each part, one
      after the other. */
  lemma {:induction false} UploadGalleryAppend(f: seq<string>, g: seq<string>, upload: (string, string) -> Option<string>)
    ensures UploadGallery(f + g, upload) == UploadGallery(f, upload) + UploadGallery(g, upload)
    decreases |f|
  {
    if |f| == 0 {
      assert f + g == g;
    } else {
      assert (f + g)[0] == f[0];
      assert (f + g)[1..] == f[1..] + g;
      UploadGalleryAppend(f[1..], g, upload);
    }
  }

  /** One file: its URL when the upload succeeds, nothing when it throws.
      With `UploadGalleryAppend` this fixes the loop's result on every list. */
  lemma UploadGalleryOne(f: string, upload: (string, string) -> Option<string>)
    ensures upload(f, ViewsFolder).None? ==> UploadGallery([f], upload) == []
    ensures upload(f, ViewsFolder).Some? ==> UploadGallery([f], upload) == [upload(f, ViewsFolder).value]
  {
    assert [f][1..] == [];
  }

  /** The upload calls for a main image and gallery files. */
  function UploadsMade(image: string, gallery: seq<string>): (r: seq<Upload>)
    ensures |r| == 1 + |gallery|
    ensures r[0] == Upload(image, MainFolder)
    ensures forall i :: 0 <= i < |gallery| ==> r[i + 1] == Upload(gallery[i], ViewsFolder)
  {
    [Upload(image, MainFolder)] + seq(|gallery|, i requires 0 <= i < |gallery| => Upload(gallery[i], ViewsFolder))
  }

  /** The row `prisma.property.create` stores: defaults for the omitted
      optional fields, the uploaded URLs for the images. `id` is the
      database-generated key and `saleStatus` the column default. */
  function NewProperty(input: PropertyInput, id: string, imageUrl: string, viewUrls: seq<string>): Property {
    Property(id, input.sellerId, input.title, imageUrl, input.bedrooms, input.rating.GetOr(0.0), input.sf,
             input.reviews.GetOr(0), input.price, input.location, viewUrls, input.overview.GetOr(map[]),
             input.about.GetOr([]), Available)
  }

  /** `createProperty(data)`. */
  function CreateProperty(c: Catalog, input: PropertyInput, id: string, upload: (string, string) -> Option<string>): (r: Creation)
    ensures !(input.imageSrc.Some? && IsImageData(input.imageSrc.value)) ==>
      r == Creation(Err(Fail(InvalidImageText)), [], c)
    ensures input.imageSrc.Some? && IsImageData(input.imageSrc.value) && upload(input.imageSrc.value, MainFolder).None? ==>
      r == Creation(Err(Fail(MainUploadFailedText)), [Upload(input.imageSrc.value, MainFolder)], c)
    ensures input.imageSrc.Some? && IsImageData(input.imageSrc.value) && upload(input.imageSrc.value, MainFolder).Some? ==>
      r.uploads == UploadsMade(input.imageSrc.value, GalleryImages(input.views))
    ensures r.result.Err? ==> r.catalog == c
    ensures r.result.Ok? <==>
      && input.imageSrc.Some? && IsImageData(input.imageSrc.value)
      && upload(input.imageSrc.value, MainFolder).Some?
      && input.sellerId in c.users
      && FindProperty(c, id).None?
    ensures r.result.Ok? ==>
      && r.catalog == c.(properties := c.properties + [r.result.value])
      && r.result.value.id == id
      && r.result.value.imageSrc == upload(input.imageSrc.value, MainFolder).value
      && r.result.value.views == UploadGallery(GalleryImages(input.views), upload)
  {
    if input.imageSrc.None? || !IsImageData(input.imageSrc.value) then
      Creation(Err(Fail(InvalidImageText)), [], c)
    else
      var image := input.imageSrc.value;
      match upload(image, MainFolder)
      case None => Creation(Err(Fail(MainUploadFailedText)), [Upload(image, MainFolder)], c)
      case Some(imageUrl) =>
        var gallery := GalleryImages(input.views);
        var uploads := UploadsMade(image, gallery);
        var viewUrls := UploadGallery(gallery, upload);
        if input.sellerId !in c.users then Creation(Err(ForeignKeyViolation("sellerId")), uploads, c)
        else if FindProperty(c, id).Some? then Creation(Err(UniqueViolation("id")), uploads, c)
        else
          var p := NewProperty(input, id, imageUrl, viewUrls);
          Creation(Ok(p), uploads, c.(properties := c.properties + [p]))
  }

  /** Omitted optional fields are stored as rating 0, reviews 0, an empty
      overview object, no "about" lines; a new property is for sale. */
  lemma OmittedFieldsDefault(c: Catalog, input: PropertyInput, id: string, upload: (string, string) -> Option<string>)
    requires input.rating.None? && input.reviews.None? && input.overview.None? && input.about.None?
    requires CreateProperty(c, input, id, upload).result.Ok?
    ensures var p := CreateProperty(c, input, id, upload).result.value;
      p.rating == 0.0 && p.reviews == 0 && p.overview == map[] && p.about == [] && p.saleStatus == Available
  {
  }

  /** Given fields are stored as given. */
  lemma GivenFieldsKept(c: Catalog, input: PropertyInput, id: string, upload: (string, string) -> Option<string>)
    requires CreateProperty(c, input, id, upload).result.Ok?
    ensures var p := CreateProperty(c, input, id, upload).result.value;
      && p.sellerId == input.sellerId && p.title == input.title && p.bedrooms == input.bedrooms
      && p.sf == input.sf && p.price == input.price && p.location == input.location
      && (input.rating.Some? ==> p.rating == input.rating.value)
      && (input.reviews.Some? ==> p.reviews == input.reviews.value)
      && (input.overview.Some? ==> p.overview == input.overview.value)
      && (input.about.Some? ==> p.about == input.about.value)
  {
  }

  /** Once the main image is accepted and uploaded, one upload is made per
      gallery entry that is image data, in order, whatever the database
      does afterwards: a failed insert leaves the uploaded images behind. */
  lemma UploadsPrecedeInsert(c: Catalog, input: PropertyInput, id: string, upload: (string, string) -> Option<string>)
    requires input.imageSrc.Some? && IsImageData(input.imageSrc.value)
    requires upload(input.imageSrc.value, MainFolder).Some?
    ensures var r := CreateProperty(c, input, id, upload);
      var gallery := GalleryImages(input.views);
      && |r.uploads| == 1 + |gallery|
      && r.uploads[0] == Upload(input.imageSrc.value, MainFolder)
      && (forall i :: 0 <= i < |gallery| ==> r.uploads[i + 1] == Upload(gallery[i], ViewsFolder))
  {
  }

  /** Appending a property with a fresh id leaves every other id's lookup
      as it was and finds the new one at the end. */
  lemma AppendPropertyLookups(c: Catalog, p: Property)
    requires FindProperty(c, p.id).None?
    ensures var c' := c.(properties := c.properties + [p]);
      && FindProperty(c', p.id) == Some(|c.properties|)
      && (forall id :: id != p.id ==> FindProperty(c', id) == FindProperty(c, id))
  {
    var c' := c.(properties := c.properties + [p]);
    assert c'.properties[|c.properties|] == p;
    forall id | id != p.id ensures FindProperty(c', id) == FindProperty(c, id) {
      AppendOtherLookup(c, p, id);
    }
  }

  lemma AppendOtherLookup(c: Catalog, p: Property, id: string)
    requires id != p.id
    ensures FindProperty(c.(properties := c.properties + [p]), id) == FindProperty(c, id)
  {
    var c' := c.(properties := c.properties + [p]);
    assert forall j :: 0 <= j < |c.properties| ==> c'.properties[j] == c.properties[j];
    assert c'.properties[|c.properties|] == p;
  }

  /** A property with a fresh id is linked to nobody. */
  lemma FreshPropertyUnlinked(c: Catalog, rel: Relation, userId: nat, id: string)
    requires Valid(c) && FindProperty(c, id).None?
    ensures !Linked(c, rel, userId, id)
  {
    var links := Links(c, rel);
    assert Resolves(c, links);
    forall j | 0 <= j < |links| ensures links[j].propertyId != id {
      assert FindProperty(c, links[j].propertyId).Some?;
    }
  }

  /** Rows that resolve before a property is appended still resolve after. */
  lemma AppendPropertyResolves(c: Catalog, p: Property, links: seq<Link>)
    requires Resolves(c, links) && FindProperty(c, p.id).None?
    ensures Resolves(c.(properties := c.properties + [p]), links)
  {
    var c' := c.(properties := c.properties + [p]);
    AppendPropertyLookups(c, p);
    forall k | 0 <= k < |links| ensures FindProperty(c', links[k].propertyId).Some? {
      assert FindProperty(c, links[k].propertyId).Some?;
    }
  }

  /** Appending a property with a fresh id keeps the catalog valid. */
  lemma AppendPropertyKeepsValid(c: Catalog, p: Property)
    requires Valid(c) && FindProperty(c, p.id).None?
    ensures Valid(c.(properties := c.properties + [p]))
  {
    var c' := c.(properties := c.properties + [p]);
    forall rel ensures UniquePairs(Links(c', rel)) && Resolves(c', Links(c', rel)) {
      assert UniquePairs(Links(c, rel)) && Resolves(c, Links(c, rel));
      AppendPropertyResolves(c, p, Links(c, rel));
    }
    forall i, j | 0 <= i < j < |c'.properties| ensures c'.properties[i].id != c'.properties[j].id {
      if j == |c.properties| {
        assert c'.properties[i] == c.properties[i];
      }
    }
  }

  /** A user in none of the four relations with a property sees every flag off. */
  lemma UnlinkedStatus(c: Catalog, propertyId: string, userId: nat)
    requires userId != 0 && forall rel :: !Linked(c, rel, userId, propertyId)
    ensures StatusFor(c, propertyId, Some(userId)) == Flags(false, false, false, false)
  {
    assert !Linked(c, Bought, userId, propertyId) && !Linked(c, Wishlist, userId, propertyId);
    assert !Linked(c, Invested, userId, propertyId) && !Linked(c, Rented, userId, propertyId);
  }

  /** A property appended under a fresh id is linked to nobody. */
  lemma AppendedPropertyUnlinked(c: Catalog, p: Property, userId: nat)
    requires Valid(c) && FindProperty(c, p.id).None?
    ensures forall rel :: !Linked(c.(properties := c.properties + [p]), rel, userId, p.id)
  {
    forall rel ensures !Linked(c.(properties := c.properties + [p]), rel, userId, p.id) {
      FreshPropertyUnlinked(c, rel, userId, p.id);
    }
  }

  /** A property appended under a fresh id reads back with every flag off. */
  lemma AppendedPropertyReadsBack(c: Catalog, p: Property, userId: nat)
    requires Valid(c) && FindProperty(c, p.id).None? && userId != 0
    ensures var c' := c.(properties := c.properties + [p]);
      && Valid(c')
      && GetPropertyById(c', p.id, Some(userId)) == Ok(PropertyView(p, Flags(false, false, false, false)))
  {
    var c' := c.(properties := c.properties + [p]);
    AppendPropertyLookups(c, p);
    AppendPropertyKeepsValid(c, p);
    AppendedPropertyUnlinked(c, p, userId);
    UnlinkedStatus(c', p.id, userId);
    assert c'.properties[|c.properties|] == p;
  }

  /** A created property is valid in the catalog, can be read back by its
      id, and no user has any relation with it yet. */
  lemma CreatedPropertyReadsBack(c: Catalog, input: PropertyInput, id: string,
                                 upload: (string, string) -> Option<string>, userId: nat)
    requires Valid(c) && userId != 0
    requires CreateProperty(c, input, id, upload).result.Ok?
    ensures var r := CreateProperty(c, input, id, upload);
      && Valid(r.catalog)
      && GetPropertyById(r.catalog, id, Some(userId)) == Ok(PropertyView(r.result.value, Flags(false, false, false, false)))
  {
    var r := CreateProperty(c, input, id, upload);
    AppendedPropertyReadsBack(c, r.result.value, userId);
  }

  /** When the main image is valid but its upload throws, nothing is stored,
      the one upload attempted is the main image's, and the controller's
      classifier reports the image upload message, because the thrown text
      names Cloudinary. */
  lemma MainUploadFailureIsClassified(c: Catalog, input: PropertyInput, id: string, upload: (string, string) -> Option<string>)
    requires input.imageSrc.Some? && IsImageData(input.imageSrc.value)
    requires upload(input.imageSrc.value, MainFolder).None?
    ensures var r := CreateProperty(c, input, id, upload);
      && r.result.Err? && Classify(r.result.error) == UploadText
      && r.uploads == [Upload(input.imageSrc.value, MainFolder)] && r.catalog == c
  {
    var needle := "Cloudinary";
    assert MainUploadFailedText[31..41] == needle;
    ContainsIffOccurs(MainUploadFailedText, needle);
    assert OccursAt(MainUploadFailedText, needle, 31);
  }
}
