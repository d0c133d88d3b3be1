/**
  The contact table and the four queries the identify handler issues against it.
  The table is a sequence in insertion order; every query that the handler
  orders by `createdAt` is an order-preserving filter of it.
*/
module Contacts {
  import opened Wrappers

  /** Ids come from an autoincrementing column that starts at 1, so an id is never falsy. */
  type Id = x: int | x >= 1 witness 1

  datatype Precedence = Primary | Secondary

  datatype Contact = Contact(
    id: Id,
    email: Option<string>,
    phoneNumber: Option<string>,
    linkPrecedence: Precedence,
    linkedId: Option<Id>,
    createdAt: nat)

  type Store = seq<Contact>

  /** JavaScript truthiness of an optional string: null, undefined and "" are all falsy. */
  predicate Present(o: Option<string>) {
    o.Some? && o.value != ""
  }

  /** The two identifier columns a contact can be matched on. */
  datatype Field = Email | Phone

  function Get(c: Contact, f: Field): Option<string> {
    match f
    case Email => c.email
    case Phone => c.phoneNumber
  }

  /** `c` carries the truthy value `v` in column `f`. */
  predicate Carries(c: Contact, f: Field, v: string) {
    Get(c, f) == Some(v) && v != ""
  }

  predicate IsPrimary(c: Contact) {
    c.linkPrecedence == Primary
  }

  /** The contact's own id, or the id it links to, is one of `ids`. */
  predicate Touches(c: Contact, ids: set<Id>) {
    c.id in ids || (c.linkedId.Some? && c.linkedId.value in ids)
  }

  function Ids(s: Store): set<Id> {
    set i | 0 <= i < |s| :: s[i].id
  }

  function PrimaryIds(s: Store): set<Id> {
    set i | 0 <= i < |s| && IsPrimary(s[i]) :: s[i].id
  }

  /** Rows are stored in `createdAt` order. */
  predicate Sorted(s: Store) {
    forall i, j :: 0 <= i < j < |s| ==> s[i].createdAt <= s[j].createdAt
  }

  /** Every row was created no later than `now`. */
  predicate NotAfter(s: Store, now: nat) {
    forall i :: 0 <= i < |s| ==> s[i].createdAt <= now
  }

  /** No two rows share an id (the primary key). */
  predicate UniqueIds(s: Store) {
    forall i, j :: 0 <= i < j < |s| ==> s[i].id != s[j].id
  }

  /** A row has a link exactly when it is a secondary. */
  predicate LinkedIffSecondary(s: Store) {
    forall i :: 0 <= i < |s| ==> (IsPrimary(s[i]) <==> s[i].linkedId.None?)
  }

  /**
    The shape of the table that the handler keeps: unique ids, a link exactly on
    secondaries, links to existing rows, at least one identifier per row, and rows
    in creation order.
  */
  predicate Wf(s: Store) {
    && UniqueIds(s)
    && LinkedIffSecondary(s)
    && (forall i :: 0 <= i < |s| && s[i].linkedId.Some? ==> s[i].linkedId.value in Ids(s))
    && (forall i :: 0 <= i < |s| ==> Present(s[i].email) || Present(s[i].phoneNumber))
    && Sorted(s)
  }

  /** A well-formed table whose clusters are stars: every link points at a primary. */
  predicate Star(s: Store) {
    Wf(s) && LinksToPrimaries(s)
  }

  /** Every link of `s` points at a primary of `s`. */
  predicate LinksToPrimaries(s: Store) {
    forall i :: 0 <= i < |s| && s[i].linkedId.Some? ==> s[i].linkedId.value in PrimaryIds(s)
  }

  /** `b` holds the rows of `a`, with at most their link fields changed. */
  predicate SameRows(a: Store, b: Store) {
    && |a| == |b|
    && forall i :: 0 <= i < |a| ==>
         b[i] == a[i].(linkPrecedence := b[i].linkPrecedence, linkedId := b[i].linkedId)
  }

  /**
    A lookup ordered by creation time ascending: the rows satisfying `p`,
    and only those, in table order. `SelectCounts` adds that each comes back as
    often as it occurs in the table.
  */
  function Select(s: Store, p: Contact -> bool): (r: Store)
    ensures |r| <= |s|
    ensures forall c :: c in r <==> c in s && p(c)
    ensures |r| == 0 <==> forall i :: 0 <= i < |s| ==> !p(s[i])
    ensures Sorted(s) ==> Sorted(r)
  {
    if |s| == 0 then []
    else
      var r := Select(s[..|s| - 1], p);
      var last := s[|s| - 1];
      assert forall c :: c in s <==> c in s[..|s| - 1] || c == last;
      if p(last) then
        assert Sorted(s) ==> Sorted(r + [last]) by {
          if Sorted(s) {
            SortedUpToLast(s);
            SortedSnoc(r, last);
          }
        }
        r + [last]
      else r
  }

  /** A query returns every qualifying row exactly as often as the table holds it, and no other row. */
  lemma {:induction false} SelectCounts(s: Store, p: Contact -> bool)
    ensures forall c :: multiset(Select(s, p))[c] == if p(c) then multiset(s)[c] else 0
  {
    if |s| > 0 {
      var prefix := s[..|s| - 1];
      var last := s[|s| - 1];
      SelectCounts(prefix, p);
      assert s == prefix + [last];
      assert multiset(s) == multiset(prefix) + multiset{last};
    }
  }

  /** A prefix of a sorted table is sorted, and no row of it was created after the last one. */
  lemma SortedUpToLast(s: Store)
    requires Sorted(s) && |s| > 0
    ensures Sorted(s[..|s| - 1])
    ensures forall c :: c in s[..|s| - 1] ==> c.createdAt <= s[|s| - 1].createdAt
  {
    forall c | c in s[..|s| - 1] ensures c.createdAt <= s[|s| - 1].createdAt {
      var i :| 0 <= i < |s| - 1 && s[..|s| - 1][i] == c;
      assert s[i] == c;
    }
  }

  /** Appending a row no older than every row keeps a table sorted. */
  lemma SortedSnoc(r: Store, last: Contact)
    requires Sorted(r)
    requires forall c :: c in r ==> c.createdAt <= last.createdAt
    ensures Sorted(r + [last])
  {
    var r' := r + [last];
    forall i, j | 0 <= i < j < |r'| ensures r'[i].createdAt <= r'[j].createdAt {
      assert r'[i] == r[i];
      assert r[i] in r;
    }
  }

  /** The id the table assigns to the next inserted row. */
  function FreshId(s: Store): (r: Id)
    ensures forall i :: 0 <= i < |s| ==> s[i].id < r
  {
    if |s| == 0 then 1
    else
      var m := FreshId(s[..|s| - 1]);
      if s[|s| - 1].id < m then m else s[|s| - 1].id + 1
  }

  /** `contact.create`: appends one row under a fresh id; every existing row is kept. */
  function Create(s: Store, email: Option<string>, phone: Option<string>,
                  prec: Precedence, link: Option<Id>, now: nat): (r: Store)
    ensures |r| == |s| + 1 && r[..|s|] == s
    ensures r[|s|].id !in Ids(s)
    ensures r[|s|].email == email && r[|s|].phoneNumber == phone
    ensures r[|s|].linkPrecedence == prec && r[|s|].linkedId == link && r[|s|].createdAt == now
  {
    s + [Contact(FreshId(s), email, phone, prec, link, now)]
  }

  /**
    An update by id that sets the precedence and the link: only the
    link fields of the rows with that id change.
  */
  function Update(s: Store, id: Id, prec: Precedence, link: Option<Id>): (r: Store)
    ensures |r| == |s|
    ensures forall i :: 0 <= i < |s| && s[i].id != id ==> r[i] == s[i]
    ensures forall i :: 0 <= i < |s| && s[i].id == id ==>
      r[i].linkPrecedence == prec && r[i].linkedId == link &&
      r[i] == s[i].(linkPrecedence := r[i].linkPrecedence, linkedId := r[i].linkedId)
  {
    seq(|s|, i requires 0 <= i < |s| =>
      if s[i].id == id then s[i].(linkPrecedence := prec, linkedId := link) else s[i])
  }
}
