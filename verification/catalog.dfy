/** The listing data: properties, the four user–property relations
    (bought, wishlisted, invested, rented) keyed by the pair
    `(userId, propertyId)`, and the user ids the relations refer to. */
module Catalog {
  import opened Common
  import Tables

  datatype SaleStatus = Available | Sold

  /** A property row. `overview` is a JSON object, kept here as a map. */
  datatype Property = Property(
    id: string,
    sellerId: nat,
    title: string,
    imageSrc: string,
    bedrooms: string,
    rating: real,
    sf: string,
    reviews: int,
    price: string,
    location: string,
    views: seq<string>,
    overview: map<string, string>,
    about: seq<string>,
    saleStatus: SaleStatus)

  datatype Relation = Bought | Wishlist | Invested | Rented

  /** A row of one of the relation tables. */
  datatype Link = Link(userId: nat, propertyId: string, createdAt: int)

  datatype Catalog = Catalog(
    users: set<nat>,
    properties: seq<Property>,
    bought: seq<Link>,
    wishlist: seq<Link>,
    invested: seq<Link>,
    rented: seq<Link>)

  function Links(c: Catalog, rel: Relation): seq<Link> {
    match rel
    case Bought => c.bought
    case Wishlist => c.wishlist
    case Invested => c.invested
    case Rented => c.rented
  }

  /** The catalog with the table of `rel` replaced and the rest as it was. */
  function WithLinks(c: Catalog, rel: Relation, links: seq<Link>): (c': Catalog)
    ensures Links(c', rel) == links
    ensures forall other :: other != rel ==> Links(c', other) == Links(c, other)
    ensures c'.users == c.users && c'.properties == c.properties
  {
    match rel
    case Bought => c.(bought := links)
    case Wishlist => c.(wishlist := links)
    case Invested => c.(invested := links)
    case Rented => c.(rented := links)
  }

  function FindProperty(c: Catalog, id: string): (r: Option<nat>)
    ensures r.Some? ==> r.value < |c.properties| && c.properties[r.value].id == id
    ensures r.Some? ==> forall j :: 0 <= j < r.value ==> c.properties[j].id != id
    ensures r.None? <==> forall j :: 0 <= j < |c.properties| ==> c.properties[j].id != id
  {
    Tables.FindFirst(c.properties, (p: Property) => p.id == id)
  }

  /** `findUnique({ where: { userId_propertyId: { userId, propertyId } } })`. */
  function FindLink(links: seq<Link>, userId: nat, propertyId: string): (r: Option<nat>)
    ensures r.Some? ==> r.value < |links| && links[r.value].userId == userId && links[r.value].propertyId == propertyId
    ensures r.None? <==> forall j :: 0 <= j < |links| ==> !(links[j].userId == userId && links[j].propertyId == propertyId)
  {
    Tables.FindFirst(links, (l: Link) => l.userId == userId && l.propertyId == propertyId)
  }

  /** The pair is in relation `rel`. */
  predicate Linked(c: Catalog, rel: Relation, userId: nat, propertyId: string) {
    FindLink(Links(c, rel), userId, propertyId).Some?
  }

  /** The pair key of a relation table is unique. */
  predicate UniquePairs(links: seq<Link>) {
    forall i, j :: 0 <= i < j < |links| ==>
      !(links[i].userId == links[j].userId && links[i].propertyId == links[j].propertyId)
  }

  /** Every relation row points at an existing user and property. */
  predicate Resolves(c: Catalog, links: seq<Link>) {
    forall j :: 0 <= j < |links| ==> links[j].userId in c.users && FindProperty(c, links[j].propertyId).Some?
  }

  /** The database constraints: unique property ids, unique pairs per
      relation, and foreign keys that resolve. */
  predicate Valid(c: Catalog) {
    && (forall i, j :: 0 <= i < j < |c.properties| ==> c.properties[i].id != c.properties[j].id)
    && (forall rel :: UniquePairs(Links(c, rel)) && Resolves(c, Links(c, rel)))
  }

  /** In a valid catalog a property id names exactly one row. */
  lemma FindPropertyUnique(c: Catalog, k: nat)
    requires Valid(c) && k < |c.properties|
    ensures FindProperty(c, c.properties[k].id) == Some(k)
  {
  }
}
