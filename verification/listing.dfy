/** The read side of the listing (src/services/property.service.ts): the
    search and price filter of `getAllProperties` and the per-user activity
    tabs of `getUserPropertyTabs`. */
module PropertyListing {
  import opened Common
  import opened Text
  import opened ErrorHandler
  import opened Catalog
  import opened PropertyService
  import Tables
  import Sorting

  const UserNotFoundText: string := "User not found"
  const Million: real := 1000000.0

  /** The `options` argument; a missing field takes its default: query "",
      minPrice 0, maxPrice `Infinity` (a missing bound). */
  datatype SearchOptions = SearchOptions(query: Option<string>, minPrice: Option<real>, maxPrice: Option<real>)

  /** `parseInt(price.replace(/[^0-9]/g, "")) / 1_000_000`; `None` is NaN,
      which no bound admits. */
  function PriceInMillions(price: string): (r: Option<real>)
    ensures r.None? <==> DigitsOnly(price) == []
  {
    match ParseDigits(DigitsOnly(price))
    case None => None
    case Some(n) => Some(n as real / Million)
  }

  /** The lower-cased query occurs in the lower-cased title, location or
      bedrooms. */
  predicate MatchesQuery(p: Property, query: string) {
    var q := ToLower(query);
    Contains(ToLower(p.title), q) || Contains(ToLower(p.location), q) || Contains(ToLower(p.bedrooms), q)
  }

  /** `price >= minPrice && price <= maxPrice`, false for NaN. */
  predicate InPriceRange(price: Option<real>, minPrice: real, maxPrice: Option<real>) {
    price.Some? && minPrice <= price.value && (maxPrice.None? || price.value <= maxPrice.value)
  }

  /** The predicate handed to `properties.filter`. */
  predicate Keep(p: Property, o: SearchOptions) {
    MatchesQuery(p, o.query.GetOr("")) && InPriceRange(PriceInMillions(p.price), o.minPrice.GetOr(0.0), o.maxPrice)
  }

  /** The properties a listing shows, in order. */
  function Shown(views: seq<PropertyView>): (r: seq<Property>)
    ensures |r| == |views|
    ensures forall i :: 0 <= i < |views| ==> r[i] == views[i].property
  {
    seq(|views|, i requires 0 <= i < |views| => views[i].property)
  }

  /** `filtered.map(p => ({ ...p, userStatus: {} }))`. */
  function Anonymous(ps: seq<Property>): (r: seq<PropertyView>)
    ensures |r| == |ps|
    ensures forall i :: 0 <= i < |ps| ==> r[i].property == ps[i] && r[i].userStatus == NoStatus
  {
    seq(|ps|, i requires 0 <= i < |ps| => PropertyView(ps[i], NoStatus))
  }

  /** `Promise.all(ps.map(p => getPropertyById(p.id, userId)))`: every view,
      or the error of a lookup that failed. All such errors are the same
      "Property not found", so which one wins the race does not matter. */
  function ViewAll(c: Catalog, ps: seq<Property>, userId: nat): (r: Result<seq<PropertyView>, AppError>)
    ensures r.Err? <==> exists i :: 0 <= i < |ps| && FindProperty(c, ps[i].id).None?
    ensures r.Err? ==> r.error == Fail(PropertyNotFoundText)
    ensures r.Ok? ==> |r.value| == |ps|
    ensures r.Ok? ==> forall i :: 0 <= i < |ps| ==> Ok(r.value[i]) == GetPropertyById(c, ps[i].id, Some(userId))
  {
    if |ps| == 0 then Ok([])
    else match GetPropertyById(c, ps[0].id, Some(userId))
      case Err(e) => Err(e)
      case Ok(v) =>
        match ViewAll(c, ps[1..], userId)
        case Err(e) =>
          MissingInTail(c, ps);
          Err(e)
        case Ok(vs) =>
          ConsViews(c, ps, userId, v, vs);
          Ok([v] + vs)
  }

  lemma MissingInTail(c: Catalog, ps: seq<Property>)
    requires |ps| > 0 && exists i :: 0 <= i < |ps[1..]| && FindProperty(c, ps[1..][i].id).None?
    ensures exists i :: 0 <= i < |ps| && FindProperty(c, ps[i].id).None?
  {
    var i :| 0 <= i < |ps[1..]| && FindProperty(c, ps[1..][i].id).None?;
    assert ps[i + 1] == ps[1..][i];
  }

  /** The view of the head followed by the views of the tail are the views of all. */
  lemma ConsViews(c: Catalog, ps: seq<Property>, userId: nat, v: PropertyView, vs: seq<PropertyView>)
    requires |ps| > 0 && Ok(v) == GetPropertyById(c, ps[0].id, Some(userId))
    requires |vs| == |ps| - 1
    requires forall i :: 0 <= i < |ps[1..]| ==> Ok(vs[i]) == GetPropertyById(c, ps[1..][i].id, Some(userId))
    ensures forall i :: 0 <= i < |ps| ==> Ok(([v] + vs)[i]) == GetPropertyById(c, ps[i].id, Some(userId))
    ensures forall i :: 0 <= i < |ps| ==> FindProperty(c, ps[i].id).Some?
  {
    forall i | 0 <= i < |ps| ensures Ok(([v] + vs)[i]) == GetPropertyById(c, ps[i].id, Some(userId)) {
      if i > 0 {
        assert ps[i] == ps[1..][i - 1];
      }
    }
  }

  /** `getAllProperties(userId, options)`. */
  function GetAllProperties(c: Catalog, userId: Option<nat>, o: SearchOptions): (r: Result<seq<PropertyView>, AppError>)
    ensures !SignedIn(userId) ==> r.Ok?
  {
    var filtered := Tables.Where(c.properties, (p: Property) => Keep(p, o));
    if !SignedIn(userId) then Ok(Anonymous(filtered))
    else ViewAll(c, filtered, userId.value)
  }

  /** The listing shows exactly the properties the filter keeps, each with
      the status `getPropertyById` would give it: empty for an anonymous
      request, the four relation flags otherwise. */
  lemma ListingIsFilteredWithStatus(c: Catalog, userId: Option<nat>, o: SearchOptions)
    requires Valid(c)
    ensures var r := GetAllProperties(c, userId, o);
      && r.Ok?
      && (forall i :: 0 <= i < |r.value| ==>
            && r.value[i].property in c.properties
            && Keep(r.value[i].property, o)
            && r.value[i].userStatus == StatusFor(c, r.value[i].property.id, userId))
      && (forall k :: 0 <= k < |c.properties| && Keep(c.properties[k], o) ==> c.properties[k] in Shown(r.value))
  {
    var filtered := Tables.Where(c.properties, (p: Property) => Keep(p, o));
    var r := GetAllProperties(c, userId, o);
    if SignedIn(userId) {
      CatalogRowsFound(c, filtered);
      ViewsShowRows(c, filtered, userId.value);
    } else {
      assert Shown(r.value) == filtered;
    }
  }

  /** Rows taken from a valid catalog are found again by their ids. */
  lemma CatalogRowsFound(c: Catalog, ps: seq<Property>)
    requires Valid(c) && forall i :: 0 <= i < |ps| ==> ps[i] in c.properties
    ensures forall i :: 0 <= i < |ps| ==>
      FindProperty(c, ps[i].id).Some? && c.properties[FindProperty(c, ps[i].id).value] == ps[i]
  {
    forall i | 0 <= i < |ps|
      ensures FindProperty(c, ps[i].id).Some? && c.properties[FindProperty(c, ps[i].id).value] == ps[i]
    {
      var k :| 0 <= k < |c.properties| && c.properties[k] == ps[i];
      FindPropertyUnique(c, k);
    }
  }

  /** When every row is found as itself, the signed-in views show exactly the rows. */
  lemma ViewsShowRows(c: Catalog, ps: seq<Property>, userId: nat)
    requires forall i :: 0 <= i < |ps| ==>
      FindProperty(c, ps[i].id).Some? && c.properties[FindProperty(c, ps[i].id).value] == ps[i]
    ensures ViewAll(c, ps, userId).Ok? && Shown(ViewAll(c, ps, userId).value) == ps
  {
    var vs := ViewAll(c, ps, userId).value;
    assert forall i :: 0 <= i < |ps| ==> vs[i].property == ps[i];
  }

  /** Without a query every property matches: the empty string occurs in
      every text. */
  lemma EmptyQueryMatchesAll(p: Property)
    ensures MatchesQuery(p, "")
  {
    assert ToLower("") == "";
    assert ToLower(p.title)[..0] == "";
  }

  /** The search is case-insensitive: a query and its lower-cased form
      select the same properties. */
  lemma QueryIgnoresCase(p: Property, query: string)
    ensures MatchesQuery(p, query) <==> MatchesQuery(p, ToLower(query))
  {
    ToLowerIdempotent(query);
  }

  /** A text that carries no digit. */
  lemma {:induction false} NoDigitsVanish(s: string)
    requires forall i :: 0 <= i < |s| ==> !IsDigit(s[i])
    ensures DigitsOnly(s) == []
    decreases |s|
  {
    if |s| > 0 {
      NoDigitsVanish(s[1..]);
    }
  }

  /** Decoration around the digits is ignored: a number `n` written in
      decimal between two digit-free texts (a currency sign, separators
      removed, a unit) reads as `n / 1e6`, the price in millions. */
  lemma DecoratedPriceReadsDigits(before: string, n: nat, after: string)
    requires forall i :: 0 <= i < |before| ==> !IsDigit(before[i])
    requires forall i :: 0 <= i < |after| ==> !IsDigit(after[i])
    ensures PriceInMillions(before + NatToDecimal(n) + after) == Some(n as real / Million)
  {
    var d := NatToDecimal(n);
    NoDigitsVanish(before);
    NoDigitsVanish(after);
    DigitsOnlyAppend(before + d, after);
    DigitsOnlyAppend(before, d);
    DigitsOnlyKeepsDigits(d);
    NatToDecimalRoundTrip(n);
    assert DigitsOnly(before + d + after) == d;
  }

  /** Widening the price range never drops a property. */
  lemma WiderRangeKeepsMore(p: Property, query: Option<string>, lo: real, hi: real, lo': real, hi': Option<real>)
    requires lo' <= lo && (hi'.None? || hi <= hi'.value)
    requires Keep(p, SearchOptions(query, Some(lo), Some(hi)))
    ensures Keep(p, SearchOptions(query, Some(lo'), hi'))
  {
    var price := PriceInMillions(p.price);
    assert InPriceRange(price, lo, Some(hi));
  }

  /** One entry of a tab: the property, when the relation row was made,
      and the relation (`_activityAt`, `_type`). */
  datatype Activity = Activity(property: Property, activityAt: int, kind: Relation)

  datatype Tabs = Tabs(bought: seq<Activity>, wishlist: seq<Activity>, invested: seq<Activity>,
                       rented: seq<Activity>, allProperties: seq<Activity>)

  function Tab(t: Tabs, rel: Relation): seq<Activity> {
    match rel
    case Bought => t.bought
    case Wishlist => t.wishlist
    case Invested => t.invested
    case Rented => t.rented
  }

  /** A row of a resolving table points at an existing property. */
  lemma MemberResolves(c: Catalog, links: seq<Link>, l: Link)
    requires Resolves(c, links) && l in links
    ensures FindProperty(c, l.propertyId).Some?
  {
    var j :| 0 <= j < |links| && links[j] == l;
  }

  /** The user's rows of a relation table, newest first. */
  function UserLinks(c: Catalog, userId: nat, rel: Relation): (r: seq<Link>)
    ensures Sorting.SortedDesc(r, (l: Link) => l.createdAt)
    ensures forall i :: 0 <= i < |r| ==> r[i] in Links(c, rel) && r[i].userId == userId
    ensures forall j :: 0 <= j < |Links(c, rel)| && Links(c, rel)[j].userId == userId ==> Links(c, rel)[j] in r
  {
    var mine := Tables.Where(Links(c, rel), (l: Link) => l.userId == userId);
    Sorting.SortDescMembers(mine, (l: Link) => l.createdAt);
    Sorting.SortDesc(mine, (l: Link) => l.createdAt)
  }

  /** One tab: `user.<rel>` ordered by `createdAt` descending, each row
      replaced by its property, stamped with the row's time and kind. */
  function UserTab(c: Catalog, userId: nat, rel: Relation): (r: seq<Activity>)
    requires Resolves(c, Links(c, rel))
    ensures Sorting.SortedDesc(r, (a: Activity) => a.activityAt)
    ensures forall i :: 0 <= i < |r| ==> r[i].kind == rel
  {
    var mine := UserLinks(c, userId, rel);
    forall i | 0 <= i < |mine| ensures FindProperty(c, mine[i].propertyId).Some? {
      MemberResolves(c, Links(c, rel), mine[i]);
    }
    var r := Stamp(c, mine, rel);
    StampSorted(mine, r);
    r
  }

  /** Each row replaced by its property, stamped with the row's time and `kind`. */
  function Stamp(c: Catalog, mine: seq<Link>, kind: Relation): (r: seq<Activity>)
    requires forall i :: 0 <= i < |mine| ==> FindProperty(c, mine[i].propertyId).Some?
    ensures |r| == |mine|
    ensures forall i :: 0 <= i < |r| ==>
      r[i].property.id == mine[i].propertyId && r[i].activityAt == mine[i].createdAt && r[i].kind == kind
  {
    seq(|mine|, i requires 0 <= i < |mine| =>
      Activity(c.properties[FindProperty(c, mine[i].propertyId).value], mine[i].createdAt, kind))
  }

  /** Stamping keeps the newest-first order of the rows. */
  lemma StampSorted(mine: seq<Link>, r: seq<Activity>)
    requires Sorting.SortedDesc(mine, (l: Link) => l.createdAt)
    requires |r| == |mine| && forall i :: 0 <= i < |r| ==> r[i].activityAt == mine[i].createdAt
    ensures Sorting.SortedDesc(r, (a: Activity) => a.activityAt)
  {
    forall i, j | 0 <= i < j < |r| ensures r[i].activityAt >= r[j].activityAt {
      assert mine[i].createdAt >= mine[j].createdAt;
    }
  }

  /** The entries of a tab follow the user's rows one for one, each showing
      the property its row names. */
  lemma UserTabEntries(c: Catalog, userId: nat, rel: Relation)
    requires Resolves(c, Links(c, rel))
    ensures var mine := UserLinks(c, userId, rel);
      var tab := UserTab(c, userId, rel);
      && |tab| == |mine|
      && (forall i :: 0 <= i < |tab| ==> tab[i].property.id == mine[i].propertyId && tab[i].activityAt == mine[i].createdAt)
  {
    var mine := UserLinks(c, userId, rel);
    forall i | 0 <= i < |mine| ensures FindProperty(c, mine[i].propertyId).Some? {
      MemberResolves(c, Links(c, rel), mine[i]);
    }
  }

  /** The four tabs and their merge. */
  function TabsOf(c: Catalog, userId: nat): (t: Tabs)
    requires forall rel :: Resolves(c, Links(c, rel))
    ensures Sorting.SortedDesc(t.allProperties, (a: Activity) => a.activityAt)
    ensures multiset(t.allProperties) == multiset(t.bought + t.wishlist + t.invested + t.rented)
  {
    var b := UserTab(c, userId, Bought);
    var w := UserTab(c, userId, Wishlist);
    var i := UserTab(c, userId, Invested);
    var r := UserTab(c, userId, Rented);
    Tabs(b, w, i, r, Sorting.SortDesc(b + w + i + r, (a: Activity) => a.activityAt))
  }

  lemma TabIsUserTab(c: Catalog, userId: nat, rel: Relation)
    requires forall rel :: Resolves(c, Links(c, rel))
    ensures Tab(TabsOf(c, userId), rel) == UserTab(c, userId, rel)
  {
  }

  /** `getUserPropertyTabs(userId)`: the four tabs, each newest first, and
      their merge, most recent activity first. */
  function GetUserPropertyTabs(c: Catalog, userId: nat): (r: Result<Tabs, AppError>)
    requires Valid(c)
    ensures r.Err? <==> userId !in c.users
    ensures r.Err? ==> r.error == Fail(UserNotFoundText)
    ensures r.Ok? ==> Sorting.SortedDesc(r.value.allProperties, (a: Activity) => a.activityAt)
    ensures r.Ok? ==>
      multiset(r.value.allProperties) == multiset(r.value.bought + r.value.wishlist + r.value.invested + r.value.rented)
  {
    if userId !in c.users then Err(Fail(UserNotFoundText))
    else Ok(TabsOf(c, userId))
  }

  /** Each tab is ordered newest first and holds entries of its own kind. */
  lemma TabsSorted(c: Catalog, userId: nat, rel: Relation)
    requires Valid(c) && userId in c.users
    ensures var tab := Tab(GetUserPropertyTabs(c, userId).value, rel);
      && Sorting.SortedDesc(tab, (a: Activity) => a.activityAt)
      && (forall i :: 0 <= i < |tab| ==> tab[i].kind == rel)
  {
    TabIsUserTab(c, userId, rel);
  }

  /** Some entry of the tab shows the property. */
  predicate Lists(tab: seq<Activity>, propertyId: string) {
    exists i :: 0 <= i < |tab| && tab[i].property.id == propertyId
  }

  /** A property appears in the user's tab only for a row of that user. */
  lemma TabEntryIsLinked(c: Catalog, userId: nat, rel: Relation, propertyId: string)
    requires Resolves(c, Links(c, rel)) && Lists(UserTab(c, userId, rel), propertyId)
    ensures Linked(c, rel, userId, propertyId)
  {
    var links := Links(c, rel);
    var mine := UserLinks(c, userId, rel);
    var tab := UserTab(c, userId, rel);
    var i :| 0 <= i < |tab| && tab[i].property.id == propertyId;
    UserTabEntries(c, userId, rel);
    RowIsFound(links, mine[i]);
  }

  /** A row of a table is found by its own pair. */
  lemma RowIsFound(links: seq<Link>, l: Link)
    requires l in links
    ensures FindLink(links, l.userId, l.propertyId).Some?
  {
    var j :| 0 <= j < |links| && links[j] == l;
  }

  /** Every row of the user shows up in the user's tab. */
  lemma LinkedIsInTab(c: Catalog, userId: nat, rel: Relation, propertyId: string)
    requires Resolves(c, Links(c, rel)) && Linked(c, rel, userId, propertyId)
    ensures Lists(UserTab(c, userId, rel), propertyId)
  {
    var links := Links(c, rel);
    var mine := UserLinks(c, userId, rel);
    var j := FindLink(links, userId, propertyId).value;
    assert links[j] in mine;
    var i :| 0 <= i < |mine| && mine[i] == links[j];
    UserTabEntries(c, userId, rel);
    assert UserTab(c, userId, rel)[i].property.id == propertyId;
  }

  /** A tab lists a property exactly when the user is in that relation with
      it, which is what the matching `userStatus` flag reports. */
  lemma TabsAgreeWithStatus(c: Catalog, userId: nat, rel: Relation, propertyId: string)
    requires Valid(c) && userId in c.users && userId != 0
    ensures Lists(Tab(GetUserPropertyTabs(c, userId).value, rel), propertyId) <==>
      Flag(StatusFor(c, propertyId, Some(userId)), rel)
  {
    TabIsUserTab(c, userId, rel);
    assert Flag(StatusFor(c, propertyId, Some(userId)), rel) == Linked(c, rel, userId, propertyId);
    assert Resolves(c, Links(c, rel));
    if Lists(UserTab(c, userId, rel), propertyId) {
      TabEntryIsLinked(c, userId, rel, propertyId);
    }
    if Linked(c, rel, userId, propertyId) {
      LinkedIsInTab(c, userId, rel, propertyId);
    }
  }
}
