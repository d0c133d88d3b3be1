/**
  The contact-linking engine of `identifyContact`: lookup, anchor set, cluster
  expansion, oldest-primary choice, demotion, the novelty check and the final
  consolidated view, as pure functions over the contact table.
*/
module Identify {
  import opened Wrappers
  import opened Contacts

  /** The body of a 200 reply (`primaryContatctId` on the wire). */
  datatype View = View(
    primaryContactId: Id,
    emails: seq<string>,
    phoneNumbers: seq<string>,
    secondaryContactIds: seq<Id>)

  /** 400 for a request without identifiers, 500 for a failed step, 200 with a view. */
  datatype Reply = BadRequest | ServerError | Identified(view: View)

  /** The table after the call and the reply sent. */
  datatype Outcome = Outcome(store: Store, reply: Reply)

  // ---------------------------------------------------------------- lookup

  /** The `OR` of the clauses built for the truthy identifiers of the request. */
  predicate Matches(c: Contact, email: Option<string>, phone: Option<string>) {
    (Present(email) && c.email == email) || (Present(phone) && c.phoneNumber == phone)
  }

  function Matched(s: Store, email: Option<string>, phone: Option<string>): Store {
    Select(s, c => Matches(c, email, phone))
  }

  // ---------------------------------------------------------------- anchors

  /** A matched contact adds its own id when primary and its link target when it has one. */
  predicate Contributes(c: Contact, x: Id) {
    (IsPrimary(c) && c.id == x) || c.linkedId == Some(x)
  }

  /** The set filled by the `forEach` over the matched contacts. */
  function Anchors(matched: seq<Contact>): (ids: set<Id>)
    ensures forall x :: x in ids <==> exists c :: c in matched && Contributes(c, x)
  {
    if |matched| == 0 then {}
    else
      var c := matched[|matched| - 1];
      var prefix := matched[..|matched| - 1];
      assert forall d :: d in matched <==> d in prefix || d == c;
      var own := (if IsPrimary(c) then {c.id} else {}) + (if c.linkedId.Some? then {c.linkedId.value} else {});
      assert forall x :: x in own <==> Contributes(c, x);
      assert forall x :: (exists d :: d in matched && Contributes(d, x)) <==>
        (exists d :: d in prefix && Contributes(d, x)) || Contributes(c, x);
      Anchors(prefix) + own
  }

  /** Every row that is, or links to, an anchor: the union of the touched clusters. */
  function Expanded(s: Store, anchors: set<Id>): (r: Store)
    ensures forall c :: c in r <==> c in s && Touches(c, anchors)
    ensures Sorted(s) ==> Sorted(r)
  {
    Select(s, c => Touches(c, anchors))
  }

  /** The expansion is the union of the clusters of its anchors. */
  lemma ExpandedIsUnion(s: Store, anchors: set<Id>)
    ensures forall c :: c in Expanded(s, anchors) <==> exists x :: x in anchors && c in Cluster(s, x)
  {
  }

  function Expansion(s: Store, email: Option<string>, phone: Option<string>): Store {
    Expanded(s, Anchors(Matched(s, email, phone)))
  }

  function PrimariesOf(cs: seq<Contact>): seq<Contact> {
    Select(cs, IsPrimary)
  }

  // ---------------------------------------------------------------- survivor

  /**
    The reduction that keeps the older of two primaries, replacing the current
    one only when the next is strictly older: the position of a primary with the
    least `createdAt`, ties going to the earliest position.
  */
  function OldestIndex(ps: seq<Contact>): (k: nat)
    requires |ps| > 0
    ensures k < |ps|
    ensures forall j :: 0 <= j < |ps| ==> ps[k].createdAt <= ps[j].createdAt
    ensures forall j :: 0 <= j < k ==> ps[k].createdAt < ps[j].createdAt
  {
    if |ps| == 1 then 0
    else
      var k := OldestIndex(ps[..|ps| - 1]);
      if ps[|ps| - 1].createdAt < ps[k].createdAt then |ps| - 1 else k
  }

  /** The oldest primary of an expansion, or None where `reduce` would throw on an empty list. */
  function SurvivorIn(expanded: seq<Contact>): (r: Option<Contact>)
    ensures r.None? <==> forall c :: c in expanded ==> !IsPrimary(c)
    ensures r.Some? ==> r.value in expanded && IsPrimary(r.value)
    ensures r.Some? ==> forall c :: c in expanded && IsPrimary(c) ==> r.value.createdAt <= c.createdAt
  {
    var ps := PrimariesOf(expanded);
    if |ps| == 0 then None
    else
      assert ps[0] in ps;
      var k := OldestIndex(ps);
      assert ps[k] in ps;
      Some(ps[k])
  }

  // ---------------------------------------------------------------- demotion

  /** The primaries of the expansion other than the survivor: the ones to demote. */
  function OthersOf(expanded: seq<Contact>, survivor: Id): (r: seq<Contact>)
    ensures forall c :: c in r <==> c in expanded && IsPrimary(c) && c.id != survivor
  {
    Select(PrimariesOf(expanded), (c: Contact) => c.id != survivor)
  }

  function IdsOf(cs: seq<Contact>): set<Id> {
    set c | c in cs :: c.id
  }

  /** A contact turned into a secondary of `survivor`. */
  function Demoted(c: Contact, survivor: Id): Contact {
    c.(linkPrecedence := Secondary, linkedId := Some(survivor))
  }

  /** The loop of `update` calls over the other primaries, one row id at a time. */
  function DemoteAll(s: Store, others: seq<Contact>, survivor: Id): (r: Store)
    ensures |r| == |s|
    ensures forall i :: 0 <= i < |s| && s[i].id !in IdsOf(others) ==> r[i] == s[i]
    ensures forall i :: 0 <= i < |s| && s[i].id in IdsOf(others) ==> r[i] == Demoted(s[i], survivor)
    decreases |others|
  {
    if |others| == 0 then s
    else
      var s' := Update(s, others[0].id, Secondary, Some(survivor));
      var r := DemoteAll(s', others[1..], survivor);
      assert forall c :: c in others <==> c == others[0] || c in others[1..];
      assert forall x :: x in IdsOf(others) <==> x == others[0].id || x in IdsOf(others[1..]);
      r
  }

  /**
    The re-parenting the handler leaves out: every row that linked to a demoted
    primary is pointed at the survivor instead (one `updateMany`).
  */
  function Relink(s: Store, from: set<Id>, survivor: Id): (r: Store)
    ensures |r| == |s|
    ensures forall i :: 0 <= i < |s| && !(s[i].linkedId.Some? && s[i].linkedId.value in from) ==> r[i] == s[i]
    ensures forall i :: 0 <= i < |s| && s[i].linkedId.Some? && s[i].linkedId.value in from ==>
      r[i] == s[i].(linkedId := Some(survivor))
  {
    seq(|s|, i requires 0 <= i < |s| =>
      if s[i].linkedId.Some? && s[i].linkedId.value in from then s[i].(linkedId := Some(survivor)) else s[i])
  }

  /** Demote the other primaries; with `reparent`, also move their secondaries to the survivor. */
  function Merge(s: Store, others: seq<Contact>, survivor: Id, reparent: bool): (r: Store)
    ensures SameRows(s, r)
    ensures forall i :: 0 <= i < |s| && r[i] != s[i] ==> r[i].linkedId == Some(survivor)
  {
    var demoted := DemoteAll(s, others, survivor);
    if reparent then Relink(demoted, IdsOf(others), survivor) else demoted
  }

  /** The survivor's cluster: the rows whose id is the survivor's or that link to it, in table order. */
  function Cluster(s: Store, survivor: Id): (r: Store)
    ensures forall c :: c in r <==> c in s && (c.id == survivor || c.linkedId == Some(survivor))
    ensures Sorted(s) ==> Sorted(r)
  {
    Select(s, c => Touches(c, {survivor}))
  }

  // ---------------------------------------------------------------- novelty and view

  /** Some contact of `cs` carries `v` in column `f`. */
  predicate Carried(cs: seq<Contact>, f: Field, v: string) {
    exists i :: 0 <= i < |cs| && Carries(cs[i], f, v)
  }

  /** The position of the first contact of `cs` that carries `v` in column `f`. */
  function FirstCarrier(cs: seq<Contact>, f: Field, v: string): (k: nat)
    requires Carried(cs, f, v)
    ensures k < |cs| && Carries(cs[k], f, v)
    ensures forall j :: 0 <= j < k ==> !Carries(cs[j], f, v)
  {
    var prefix := cs[..|cs| - 1];
    if Carried(prefix, f, v) then FirstCarrier(prefix, f, v) else |cs| - 1
  }

  /**
    Column `f` of every contact with falsy values dropped and duplicates removed:
    the distinct truthy values of `f`, each once, in the order their first carrier
    appears in `cs`.
  */
  function Collect(cs: seq<Contact>, f: Field): (r: seq<string>)
    ensures forall i, j :: 0 <= i < j < |r| ==> r[i] != r[j]
    ensures forall v :: v in r <==> Carried(cs, f, v)
    ensures forall i, j :: 0 <= i < j < |r| ==> FirstCarrier(cs, f, r[i]) < FirstCarrier(cs, f, r[j])
  {
    if |cs| == 0 then []
    else
      var prefix := cs[..|cs| - 1];
      var r := Collect(prefix, f);
      var o := Get(cs[|cs| - 1], f);
      CarriedSnoc(cs, f);
      if Present(o) && o.value !in r then r + [o.value] else r
  }

  /** How carrying and the first carrier change when one contact is appended. */
  lemma CarriedSnoc(cs: seq<Contact>, f: Field)
    requires |cs| > 0
    ensures var prefix := cs[..|cs| - 1];
      && (forall v :: Carried(cs, f, v) <==> Carried(prefix, f, v) || Carries(cs[|cs| - 1], f, v))
      && (forall v :: Carried(prefix, f, v) ==> FirstCarrier(cs, f, v) == FirstCarrier(prefix, f, v) < |cs| - 1)
      && (forall v :: Carried(cs, f, v) && !Carried(prefix, f, v) ==> FirstCarrier(cs, f, v) == |cs| - 1)
  {
    var prefix := cs[..|cs| - 1];
    forall v | Carried(prefix, f, v) ensures Carried(cs, f, v) {
      var i :| 0 <= i < |prefix| && Carries(prefix[i], f, v);
      assert cs[i] == prefix[i];
    }
    forall v | Carried(cs, f, v) && !Carries(cs[|cs| - 1], f, v) ensures Carried(prefix, f, v) {
      var i :| 0 <= i < |cs| && Carries(cs[i], f, v);
      assert prefix[i] == cs[i];
    }
  }

  /**
    The request brings something the cluster has not seen: a truthy email missing
    from its emails or a truthy phone missing from its phones.
  */
  function Novel(cluster: seq<Contact>, email: Option<string>, phone: Option<string>): (b: bool)
    ensures b <==> ((Present(email) && !Carried(cluster, Email, email.value))
                 || (Present(phone) && !Carried(cluster, Phone, phone.value)))
  {
    (Present(email) && email.value !in Collect(cluster, Email))
      || (Present(phone) && phone.value !in Collect(cluster, Phone))
  }

  /** The position of the first primary of `cs`, as a search from the front finds it. */
  function FirstPrimary(cs: seq<Contact>): (r: Option<nat>)
    ensures r.None? <==> forall i :: 0 <= i < |cs| ==> !IsPrimary(cs[i])
    ensures r.Some? ==> r.value < |cs| && IsPrimary(cs[r.value])
    ensures r.Some? ==> forall j :: 0 <= j < r.value ==> !IsPrimary(cs[j])
  {
    if |cs| == 0 then None
    else if IsPrimary(cs[0]) then Some(0)
    else
      match FirstPrimary(cs[1..])
      case None => None
      case Some(k) => Some(k + 1)
  }

  /** The ids of the secondaries of `cs`, in the order of `cs`. */
  function SecondaryIds(cs: seq<Contact>): (r: seq<Id>)
    ensures forall x :: x in r <==> exists c :: c in cs && !IsPrimary(c) && c.id == x
  {
    if |cs| == 0 then []
    else
      assert forall c :: c in cs <==> c == cs[0] || c in cs[1..];
      (if IsPrimary(cs[0]) then [] else [cs[0].id]) + SecondaryIds(cs[1..])
  }

  /** The final aggregation; None where the non-null assertion on `find` would fail. */
  function Consolidate(cluster: seq<Contact>): (r: Option<View>)
    ensures r.None? <==> forall i :: 0 <= i < |cluster| ==> !IsPrimary(cluster[i])
    ensures r.Some? ==> exists k :: 0 <= k < |cluster| && IsPrimary(cluster[k]) &&
                                    (forall j :: 0 <= j < k ==> !IsPrimary(cluster[j])) &&
                                    r.value.primaryContactId == cluster[k].id
    ensures r.Some? ==> forall v :: v in r.value.emails <==> Carried(cluster, Email, v)
    ensures r.Some? ==> forall v :: v in r.value.phoneNumbers <==> Carried(cluster, Phone, v)
    ensures r.Some? ==> forall x :: x in r.value.secondaryContactIds <==>
      exists c :: c in cluster && !IsPrimary(c) && c.id == x
  {
    match FirstPrimary(cluster)
    case None => None
    case Some(k) =>
      Some(View(cluster[k].id, Collect(cluster, Email), Collect(cluster, Phone), SecondaryIds(cluster)))
  }

  /** The one-element list of a truthy value, or the empty list for a falsy one. */
  function Singleton(o: Option<string>): seq<string> {
    if Present(o) then [o.value] else []
  }

  // ---------------------------------------------------------------- the handler

  /**
    One call of the handler on table `s`, with `now` the creation time of any row it
    inserts. `reparent` selects the corrected merge; without it this is the code as
    written.
  */
  function Run(s: Store, email: Option<string>, phone: Option<string>, now: nat, reparent: bool): (out: Outcome)
    ensures out.reply == BadRequest <==> !Present(email) && !Present(phone)
    ensures out.reply == BadRequest ==> out.store == s
    ensures |s| <= |out.store| <= |s| + 1
    ensures SameRows(s, out.store[..|s|])
  {
    if !Present(email) && !Present(phone) then Outcome(s, BadRequest)
    else
      var matched := Matched(s, email, phone);
      if |matched| == 0 then
        Outcome(Create(s, email, phone, Primary, None, now),
                Identified(View(FreshId(s), Singleton(email), Singleton(phone), [])))
      else
        var expanded := Expanded(s, Anchors(matched));
        match SurvivorIn(expanded)
        case None => Outcome(s, ServerError)
        case Some(p) => Settle(s, email, phone, now, reparent, p.id, OthersOf(expanded, p.id))
  }

  /**
    The match branch once the survivor is known: merge `others` into it, add the
    new secondary when the request is novel, and aggregate the cluster.
  */
  function Settle(s: Store, email: Option<string>, phone: Option<string>, now: nat, reparent: bool,
                  survivor: Id, others: seq<Contact>): (out: Outcome)
    ensures out.reply != BadRequest
    ensures |s| <= |out.store| <= |s| + 1
    ensures SameRows(s, out.store[..|s|])
  {
    var merged := Merge(s, others, survivor, reparent);
    var s' := if Novel(Cluster(merged, survivor), email, phone)
              then Create(merged, email, phone, Secondary, Some(survivor), now)
              else merged;
    match Consolidate(Cluster(s', survivor))
    case None => Outcome(s', ServerError)
    case Some(v) => Outcome(s', Identified(v))
  }
}
