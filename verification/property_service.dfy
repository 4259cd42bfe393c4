/** Relation toggling and the per-user property view
    (src/services/property.service.ts). The relation and property writes of
    one toggle are separate statements, not one transaction: a write that
    throws leaves the earlier ones in place. */
module PropertyService {
  import opened Common
  import opened Text
  import opened ErrorHandler
  import opened Catalog
  import Tables

  const InvalidActionText: string := "Invalid action"
  const PropertyNotFoundText: string := "Property not found"

  /** `userStatus`: `{}` for an anonymous request, else the four flags. */
  datatype UserStatus =
    | NoStatus
    | Flags(isBought: bool, isWishlisted: bool, isInvested: bool, isRented: bool)

  datatype PropertyView = PropertyView(property: Property, userStatus: UserStatus)

  /** The answer of a toggle and the catalog after it. */
  datatype Step = Step(result: Result<PropertyView, AppError>, catalog: Catalog)

  /** The writes of a toggle: the error one of them threw, if any, and the
      catalog after the writes that took place. */
  datatype Written = Written(error: Option<AppError>, catalog: Catalog)

  function ActionRelation(action: string): (r: Option<Relation>)
    ensures r.Some? <==> action in {"bought", "wishlist", "invested", "rented"}
    ensures r == Some(Bought) <==> action == "bought"
  {
    if action == "bought" then Some(Bought)
    else if action == "wishlist" then Some(Wishlist)
    else if action == "invested" then Some(Invested)
    else if action == "rented" then Some(Rented)
    else None
  }

  /** `userId` is truthy: present and not 0. */
  predicate SignedIn(userId: Option<nat>) {
    userId.Some? && userId.value != 0
  }

  function Flag(s: UserStatus, rel: Relation): bool
    requires s.Flags?
  {
    match rel
    case Bought => s.isBought
    case Wishlist => s.isWishlisted
    case Invested => s.isInvested
    case Rented => s.isRented
  }

  /** The status object `getPropertyById` attaches. */
  function StatusFor(c: Catalog, propertyId: string, userId: Option<nat>): (s: UserStatus)
    ensures s.Flags? <==> SignedIn(userId)
    ensures s.Flags? ==> forall rel :: Flag(s, rel) == Linked(c, rel, userId.value, propertyId)
  {
    if !SignedIn(userId) then NoStatus
    else
      var u := userId.value;
      Flags(Linked(c, Bought, u, propertyId), Linked(c, Wishlist, u, propertyId),
            Linked(c, Invested, u, propertyId), Linked(c, Rented, u, propertyId))
  }

  /** `getPropertyById`. */
  function GetPropertyById(c: Catalog, propertyId: string, userId: Option<nat>): (r: Result<PropertyView, AppError>)
    ensures r.Err? <==> FindProperty(c, propertyId).None?
    ensures r.Err? ==> r.error == Fail(PropertyNotFoundText)
    ensures r.Ok? ==> r.value.property == c.properties[FindProperty(c, propertyId).value]
    ensures r.Ok? ==> r.value.userStatus == StatusFor(c, propertyId, userId)
  {
    match FindProperty(c, propertyId)
    case None => Err(Fail(PropertyNotFoundText))
    case Some(i) => Ok(PropertyView(c.properties[i], StatusFor(c, propertyId, userId)))
  }

  /** `property.update({ where: { id }, data: { saleStatus } })`. */
  function SetSaleStatus(c: Catalog, propertyId: string, status: SaleStatus): (w: Written)
    ensures FindProperty(c, propertyId).None? <==> w.error.Some?
    ensures w.error.Some? ==> w.catalog == c && w.error.value.KnownRequest? && w.error.value.code == "P2025"
    ensures w.error.None? ==> var i := FindProperty(c, propertyId).value;
      w.catalog == c.(properties := c.properties[i := c.properties[i].(saleStatus := status)])
    ensures w.catalog.users == c.users && forall rel :: Links(w.catalog, rel) == Links(c, rel)
    ensures |w.catalog.properties| == |c.properties|
    ensures forall j :: 0 <= j < |c.properties| ==>
      w.catalog.properties[j] == c.properties[j].(saleStatus := w.catalog.properties[j].saleStatus)
  {
    match FindProperty(c, propertyId)
    case None => Written(Some(RecordNotFound("Record to update not found.")), c)
    case Some(i) => Written(None, c.(properties := c.properties[i := c.properties[i].(saleStatus := status)]))
  }

  /** One branch of the `switch` in `toggleProperty`: delete the pair if it
      is there, create it otherwise; for "bought", then mark the property
      AVAILABLE or SOLD. Creating a row whose property or user does not
      exist breaks a foreign key. */
  function ToggleWrites(c: Catalog, rel: Relation, userId: nat, propertyId: string, now: int): (w: Written)
    ensures forall other :: other != rel ==> Links(w.catalog, other) == Links(c, other)
    ensures w.catalog.users == c.users && |w.catalog.properties| == |c.properties|
    ensures forall j :: 0 <= j < |c.properties| ==>
      w.catalog.properties[j] == c.properties[j].(saleStatus := w.catalog.properties[j].saleStatus)
    ensures rel != Bought ==> forall j :: 0 <= j < |c.properties| ==> w.catalog.properties[j] == c.properties[j]
  {
    var links := Links(c, rel);
    match FindLink(links, userId, propertyId)
    case Some(j) =>
      var c1 := WithLinks(c, rel, Tables.RemoveAt(links, j));
      if rel == Bought then SetSaleStatus(c1, propertyId, Available) else Written(None, c1)
    case None =>
      if FindProperty(c, propertyId).None? then Written(Some(ForeignKeyViolation("propertyId")), c)
      else if userId !in c.users then Written(Some(ForeignKeyViolation("userId")), c)
      else
        var c1 := WithLinks(c, rel, links + [Link(userId, propertyId, now)]);
        if rel == Bought then SetSaleStatus(c1, propertyId, Sold) else Written(None, c1)
  }

  /** `toggleProperty`: the writes, then the property read back with the
      user's status. */
  function ToggleProperty(c: Catalog, userId: nat, propertyId: string, action: string, now: int): (r: Step)
    ensures ActionRelation(action).None? ==> r == Step(Err(Fail(InvalidActionText)), c)
    ensures ActionRelation(action).Some? ==>
      var w := ToggleWrites(c, ActionRelation(action).value, userId, propertyId, now);
      && r.catalog == w.catalog
      && (w.error.Some? ==> r.result == Err(w.error.value))
      && (w.error.None? ==> r.result == GetPropertyById(w.catalog, propertyId, Some(userId)))
  {
    match ActionRelation(action)
    case None => Step(Err(Fail(InvalidActionText)), c)
    case Some(rel) =>
      var w := ToggleWrites(c, rel, userId, propertyId, now);
      if w.error.Some? then Step(Err(w.error.value), w.catalog)
      else Step(GetPropertyById(w.catalog, propertyId, Some(userId)), w.catalog)
  }

  /** Removing row `j` keeps pairs unique, drops exactly row `j`'s pair and
      keeps every other pair's membership. */
  lemma RemovePair(links: seq<Link>, j: nat)
    requires UniquePairs(links) && j < |links|
    ensures var r := Tables.RemoveAt(links, j);
      && UniquePairs(r)
      && FindLink(r, links[j].userId, links[j].propertyId).None?
      && (forall u, p :: !(u == links[j].userId && p == links[j].propertyId) ==>
            FindLink(r, u, p).Some? == FindLink(links, u, p).Some?)
      && (forall k :: 0 <= k < |r| ==> r[k] == links[if k < j then k else k + 1])
  {
    var r := Tables.RemoveAt(links, j);
    forall k | 0 <= k < |r| ensures r[k] == links[if k < j then k else k + 1] {
    }
    forall a, b | 0 <= a < b < |r|
      ensures !(r[a].userId == r[b].userId && r[a].propertyId == r[b].propertyId)
    {
      var a' := if a < j then a else a + 1;
      var b' := if b < j then b else b + 1;
      assert a' < b' && r[a] == links[a'] && r[b] == links[b'];
    }
    forall u, p | !(u == links[j].userId && p == links[j].propertyId)
      ensures FindLink(r, u, p).Some? == FindLink(links, u, p).Some?
    {
      if FindLink(links, u, p).Some? {
        var k := FindLink(links, u, p).value;
        assert k != j;
        var k' := if k < j then k else k - 1;
        assert r[k'] == links[k];
      }
    }
  }

  /** Appending a new pair keeps pairs unique, makes the pair present and
      keeps every other pair's membership. */
  lemma AppendPair(links: seq<Link>, l: Link)
    requires UniquePairs(links) && FindLink(links, l.userId, l.propertyId).None?
    ensures var r := links + [l];
      && UniquePairs(r)
      && FindLink(r, l.userId, l.propertyId).Some?
      && (forall u, p :: !(u == l.userId && p == l.propertyId) ==>
            FindLink(r, u, p).Some? == FindLink(links, u, p).Some?)
  {
    var r := links + [l];
    assert r[|links|] == l;
    forall u, p | !(u == l.userId && p == l.propertyId)
      ensures FindLink(r, u, p).Some? == FindLink(links, u, p).Some?
    {
      if FindLink(links, u, p).Some? {
        assert r[FindLink(links, u, p).value] == links[FindLink(links, u, p).value];
      }
    }
  }

  /** Catalogs with the same property ids at the same places resolve every
      property id alike. */
  lemma SameIdsSameLookup(c: Catalog, c': Catalog)
    requires |c'.properties| == |c.properties|
    requires forall j :: 0 <= j < |c.properties| ==> c'.properties[j].id == c.properties[j].id
    ensures forall id :: FindProperty(c', id) == FindProperty(c, id)
  {
    forall id ensures FindProperty(c', id) == FindProperty(c, id) {
      match FindProperty(c, id)
      case None =>
      case Some(i) =>
        assert c'.properties[i].id == id;
    }
  }

  /** Replacing a relation table by one with unique, resolving pairs keeps
      the catalog valid. */
  lemma ValidWithLinks(c: Catalog, rel: Relation, links: seq<Link>)
    requires Valid(c) && UniquePairs(links) && Resolves(c, links)
    ensures Valid(WithLinks(c, rel, links))
  {
    var c' := WithLinks(c, rel, links);
    forall other ensures UniquePairs(Links(c', other)) && Resolves(c', Links(c', other)) {
      assert UniquePairs(Links(c, other)) && Resolves(c, Links(c, other));
    }
  }

  /** Changing a sale status keeps the catalog valid and every lookup as it was. */
  lemma ValidSetSaleStatus(c: Catalog, propertyId: string, status: SaleStatus)
    requires Valid(c)
    ensures Valid(SetSaleStatus(c, propertyId, status).catalog)
    ensures forall id :: FindProperty(SetSaleStatus(c, propertyId, status).catalog, id) == FindProperty(c, id)
  {
    var c' := SetSaleStatus(c, propertyId, status).catalog;
    SameIdsSameLookup(c, c');
    forall rel ensures UniquePairs(Links(c', rel)) && Resolves(c', Links(c', rel)) {
      assert Links(c', rel) == Links(c, rel);
      assert UniquePairs(Links(c, rel)) && Resolves(c, Links(c, rel));
    }
  }

  /** Dropping a row keeps the remaining rows resolving. */
  lemma RemoveResolves(c: Catalog, links: seq<Link>, j: nat)
    requires Resolves(c, links) && j < |links|
    ensures Resolves(c, Tables.RemoveAt(links, j))
  {
    var r := Tables.RemoveAt(links, j);
    forall k | 0 <= k < |r| ensures r[k].userId in c.users && FindProperty(c, r[k].propertyId).Some? {
      assert r[k] == links[if k < j then k else k + 1];
    }
  }

  /** Appending a row whose user and property exist keeps the rows resolving. */
  lemma AppendResolves(c: Catalog, links: seq<Link>, l: Link)
    requires Resolves(c, links) && l.userId in c.users && FindProperty(c, l.propertyId).Some?
    ensures Resolves(c, links + [l])
  {
    var r := links + [l];
    forall k | 0 <= k < |r| ensures r[k].userId in c.users && FindProperty(c, r[k].propertyId).Some? {
      if k < |links| { assert r[k] == links[k]; }
    }
  }

  /** The toggle of a present pair: the row is deleted, and for "bought"
      the property becomes available. */
  lemma ToggleOffKeepsValid(c: Catalog, rel: Relation, userId: nat, propertyId: string, now: int, j: nat)
    requires Valid(c) && FindLink(Links(c, rel), userId, propertyId) == Some(j)
    ensures var w := ToggleWrites(c, rel, userId, propertyId, now);
      && w.error.None?
      && Valid(w.catalog)
      && (forall id :: FindProperty(w.catalog, id) == FindProperty(c, id))
  {
    var links := Links(c, rel);
    assert UniquePairs(links) && Resolves(c, links);
    var r := Tables.RemoveAt(links, j);
    RemovePair(links, j);
    RemoveResolves(c, links, j);
    var c1 := WithLinks(c, rel, r);
    ValidWithLinks(c, rel, r);
    SameIdsSameLookup(c, c1);
    if rel == Bought {
      ValidSetSaleStatus(c1, propertyId, Available);
    }
  }

  /** The toggle of an absent pair whose user and property exist: the row is
      created, and for "bought" the property is marked sold. */
  lemma ToggleOnKeepsValid(c: Catalog, rel: Relation, userId: nat, propertyId: string, now: int)
    requires Valid(c) && FindProperty(c, propertyId).Some? && userId in c.users
    requires FindLink(Links(c, rel), userId, propertyId).None?
    ensures var w := ToggleWrites(c, rel, userId, propertyId, now);
      && w.error.None?
      && Valid(w.catalog)
      && (forall id :: FindProperty(w.catalog, id) == FindProperty(c, id))
  {
    var links := Links(c, rel);
    assert UniquePairs(links) && Resolves(c, links);
    var l := Link(userId, propertyId, now);
    var r := links + [l];
    AppendPair(links, l);
    AppendResolves(c, links, l);
    var c1 := WithLinks(c, rel, r);
    ValidWithLinks(c, rel, r);
    SameIdsSameLookup(c, c1);
    if rel == Bought {
      ValidSetSaleStatus(c1, propertyId, Sold);
    }
  }

  /** On a valid catalog, toggling a pair whose user and property exist
      succeeds, keeps the catalog valid and keeps every property lookup. */
  lemma ToggleKeepsValid(c: Catalog, rel: Relation, userId: nat, propertyId: string, now: int)
    requires Valid(c) && FindProperty(c, propertyId).Some? && userId in c.users
    ensures var w := ToggleWrites(c, rel, userId, propertyId, now);
      && w.error.None?
      && Valid(w.catalog)
      && (forall id :: FindProperty(w.catalog, id) == FindProperty(c, id))
  {
    match FindLink(Links(c, rel), userId, propertyId)
    case Some(j) => ToggleOffKeepsValid(c, rel, userId, propertyId, now, j);
    case None => ToggleOnKeepsValid(c, rel, userId, propertyId, now);
  }

  /** The toggle flips the pair's membership in the chosen relation and
      leaves every other pair's membership as it was. */
  lemma ToggleFlips(c: Catalog, rel: Relation, userId: nat, propertyId: string, now: int)
    requires Valid(c) && FindProperty(c, propertyId).Some? && userId in c.users
    ensures var w := ToggleWrites(c, rel, userId, propertyId, now);
      && (Linked(w.catalog, rel, userId, propertyId) <==> !Linked(c, rel, userId, propertyId))
      && (forall u, p :: !(u == userId && p == propertyId) ==>
            (Linked(w.catalog, rel, u, p) <==> Linked(c, rel, u, p)))
  {
    var w := ToggleWrites(c, rel, userId, propertyId, now);
    var links := Links(c, rel);
    assert UniquePairs(links);
    match FindLink(links, userId, propertyId)
    case Some(j) =>
      RemovePair(links, j);
      assert Links(w.catalog, rel) == Tables.RemoveAt(links, j);
    case None =>
      AppendPair(links, Link(userId, propertyId, now));
      assert Links(w.catalog, rel) == links + [Link(userId, propertyId, now)];
  }

  /** "bought" marks the property SOLD when the pair is added and AVAILABLE
      when it is removed; nothing else about the property changes. */
  lemma BoughtSetsSaleStatus(c: Catalog, userId: nat, propertyId: string, now: int)
    requires Valid(c) && FindProperty(c, propertyId).Some? && userId in c.users
    ensures var w := ToggleWrites(c, Bought, userId, propertyId, now);
      var i := FindProperty(c, propertyId).value;
      && w.catalog.properties == c.properties[i := c.properties[i].(saleStatus :=
           if Linked(c, Bought, userId, propertyId) then Available else Sold)]
  {
    var w := ToggleWrites(c, Bought, userId, propertyId, now);
    var links := Links(c, Bought);
    match FindLink(links, userId, propertyId)
    case Some(j) =>
      var c1 := WithLinks(c, Bought, Tables.RemoveAt(links, j));
      SameIdsSameLookup(c, c1);
    case None =>
      var c1 := WithLinks(c, Bought, links + [Link(userId, propertyId, now)]);
      SameIdsSameLookup(c, c1);
  }

  /** The first toggle leaves the pair toggleable again: the catalog stays
      valid and the user and property still exist. */
  lemma ToggleAgainAllowed(c: Catalog, rel: Relation, userId: nat, propertyId: string, now: int)
    requires Valid(c) && FindProperty(c, propertyId).Some? && userId in c.users
    ensures var c1 := ToggleWrites(c, rel, userId, propertyId, now).catalog;
      Valid(c1) && FindProperty(c1, propertyId).Some? && userId in c1.users
  {
    ToggleKeepsValid(c, rel, userId, propertyId, now);
  }

  /** Two toggles of a pair restore the membership of every pair in the
      toggled relation. */
  lemma ToggleTwiceSameRelation(c: Catalog, rel: Relation, userId: nat, propertyId: string, now: int, later: int)
    requires Valid(c) && FindProperty(c, propertyId).Some? && userId in c.users
    ensures var c1 := ToggleWrites(c, rel, userId, propertyId, now).catalog;
      var c2 := ToggleWrites(c1, rel, userId, propertyId, later).catalog;
      forall u, p :: Linked(c2, rel, u, p) <==> Linked(c, rel, u, p)
  {
    var c1 := ToggleWrites(c, rel, userId, propertyId, now).catalog;
    ToggleAgainAllowed(c, rel, userId, propertyId, now);
    ToggleFlips(c, rel, userId, propertyId, now);
    ToggleFlips(c1, rel, userId, propertyId, later);
  }

  /** Toggling the same pair twice restores the membership of every pair in
      every relation. */
  lemma ToggleTwiceRestores(c: Catalog, rel: Relation, userId: nat, propertyId: string, now: int, later: int)
    requires Valid(c) && FindProperty(c, propertyId).Some? && userId in c.users
    ensures var c1 := ToggleWrites(c, rel, userId, propertyId, now).catalog;
      var c2 := ToggleWrites(c1, rel, userId, propertyId, later).catalog;
      forall r, u, p :: Linked(c2, r, u, p) <==> Linked(c, r, u, p)
  {
    var c1 := ToggleWrites(c, rel, userId, propertyId, now).catalog;
    var c2 := ToggleWrites(c1, rel, userId, propertyId, later).catalog;
    ToggleTwiceSameRelation(c, rel, userId, propertyId, now, later);
    forall r, u, p ensures Linked(c2, r, u, p) <==> Linked(c, r, u, p) {
      if r != rel {
        assert Links(c2, r) == Links(c1, r) == Links(c, r);
      }
    }
  }

  /** The view a successful toggle returns shows the chosen flag flipped
      and the other three as they were, for a signed-in user. */
  lemma ToggleReportsFlip(c: Catalog, userId: nat, propertyId: string, action: string, now: int)
    requires Valid(c) && FindProperty(c, propertyId).Some? && userId in c.users && userId != 0
    requires ActionRelation(action).Some?
    ensures var r := ToggleProperty(c, userId, propertyId, action, now);
      var rel := ActionRelation(action).value;
      var before := StatusFor(c, propertyId, Some(userId));
      && r.result.Ok? && r.result.value.userStatus.Flags?
      && Flag(r.result.value.userStatus, rel) == !Flag(before, rel)
      && (forall other :: other != rel ==> Flag(r.result.value.userStatus, other) == Flag(before, other))
  {
    ToggleKeepsValid(c, ActionRelation(action).value, userId, propertyId, now);
    ToggleFlips(c, ActionRelation(action).value, userId, propertyId, now);
  }

  /** A toggle that would add a pair for a property that does not exist
      fails on the foreign key and changes nothing. */
  lemma ToggleMissingPropertyChangesNothing(c: Catalog, rel: Relation, userId: nat, propertyId: string, now: int)
    requires FindProperty(c, propertyId).None? && !Linked(c, rel, userId, propertyId)
    ensures ToggleWrites(c, rel, userId, propertyId, now) ==
      Written(Some(ForeignKeyViolation("propertyId")), c)
  {
  }
}
