/**
  What one call of the identify handler does to the contact table and what it
  replies, stated over all tables and requests.
*/
module IdentifyProperties {
  import opened Wrappers
  import opened Contacts
  import opened Identify

  // ---------------------------------------------------------------- table shape

  /** Changing only link fields, to a consistent link pointing at an existing row, keeps the table well formed. */
  lemma SameRowsKeepWf(a: Store, b: Store)
    requires Wf(a) && SameRows(a, b)
    requires forall i :: 0 <= i < |b| ==> (IsPrimary(b[i]) <==> b[i].linkedId.None?)
    requires forall i :: 0 <= i < |b| && b[i].linkedId.Some? ==> b[i].linkedId.value in Ids(a)
    ensures Wf(b)
  {
    assert forall i :: 0 <= i < |a| ==> b[i].id == a[i].id;
    assert Ids(a) == Ids(b);
    assert forall i :: 0 <= i < |a| ==> b[i].createdAt == a[i].createdAt;
  }

  /** Inserting a consistent row created at `now` keeps the table well formed. */
  lemma CreateKeepsWf(s: Store, email: Option<string>, phone: Option<string>,
                      prec: Precedence, link: Option<Id>, now: nat)
    requires Wf(s) && NotAfter(s, now)
    requires Present(email) || Present(phone)
    requires prec == Primary <==> link.None?
    requires link.Some? ==> link.value in Ids(s)
    ensures Wf(Create(s, email, phone, prec, link, now))
    ensures NotAfter(Create(s, email, phone, prec, link, now), now)
  {
    var r := Create(s, email, phone, prec, link, now);
    assert r == s + [r[|s|]];
    AppendKeepsWf(s, r[|s|], now);
  }

  /** Appending a consistent row with an unused id, created at `now`, keeps the table well formed. */
  lemma AppendKeepsWf(s: Store, n: Contact, now: nat)
    requires Wf(s) && NotAfter(s, now)
    requires n.id !in Ids(s) && n.createdAt == now
    requires Present(n.email) || Present(n.phoneNumber)
    requires IsPrimary(n) <==> n.linkedId.None?
    requires n.linkedId.Some? ==> n.linkedId.value in Ids(s)
    ensures Wf(s + [n]) && NotAfter(s + [n], now)
  {
    var r := s + [n];
    assert Ids(s) <= Ids(r) by {
      forall x | x in Ids(s) ensures x in Ids(r) {
        var i :| 0 <= i < |s| && s[i].id == x;
        assert r[i].id == x;
      }
    }
    assert UniqueIds(r) by {
      forall i, j | 0 <= i < j < |r| ensures r[i].id != r[j].id {
        if j == |s| {
          assert r[i].id in Ids(s);
        }
      }
    }
    assert LinkedIffSecondary(r);
    forall i | 0 <= i < |r| && r[i].linkedId.Some? ensures r[i].linkedId.value in Ids(r) {
      if i < |s| {
        assert r[i] == s[i];
      }
    }
    assert Sorted(r);
  }

  /** The merge step only rewrites links, never promotes, and always links to the survivor. */
  lemma MergeFacts(s: Store, others: seq<Contact>, survivor: Id, reparent: bool)
    requires forall c :: c in others ==> c.id != survivor
    requires forall i :: 0 <= i < |s| && IsPrimary(s[i]) ==> s[i].linkedId.None?
    ensures SameRows(s, Merge(s, others, survivor, reparent))
    ensures forall i :: 0 <= i < |s| && IsPrimary(Merge(s, others, survivor, reparent)[i]) ==>
      IsPrimary(s[i]) && Merge(s, others, survivor, reparent)[i] == s[i]
    ensures forall i :: 0 <= i < |s| && s[i].id == survivor && s[i].linkedId.None? ==>
      Merge(s, others, survivor, reparent)[i] == s[i]
    ensures forall i :: 0 <= i < |s| && Merge(s, others, survivor, reparent)[i] != s[i] ==>
      Merge(s, others, survivor, reparent)[i].linkedId == Some(survivor) &&
      !IsPrimary(Merge(s, others, survivor, reparent)[i])
  {
  }

  /** The merge step keeps a well-formed table well formed, with the same ids and times. */
  lemma MergeKeepsWf(s: Store, others: seq<Contact>, survivor: Id, reparent: bool)
    requires Wf(s)
    requires survivor in Ids(s)
    requires forall c :: c in others ==> c.id != survivor
    ensures var merged := Merge(s, others, survivor, reparent);
      Wf(merged) && Ids(merged) == Ids(s) && (forall now :: NotAfter(s, now) ==> NotAfter(merged, now))
  {
    var merged := Merge(s, others, survivor, reparent);
    MergeFacts(s, others, survivor, reparent);
    forall i | 0 <= i < |merged|
      ensures IsPrimary(merged[i]) <==> merged[i].linkedId.None?
      ensures merged[i].linkedId.Some? ==> merged[i].linkedId.value in Ids(s)
    {
      if merged[i] == s[i] {
        assert IsPrimary(s[i]) <==> s[i].linkedId.None?;
      }
    }
    SameRowsKeepWf(s, merged);
    assert forall i :: 0 <= i < |s| ==> merged[i].createdAt == s[i].createdAt;
    assert Ids(merged) == Ids(s) by {
      assert forall i :: 0 <= i < |s| ==> merged[i].id == s[i].id;
    }
  }

  /** The merge step keeps every row's id, identifiers and creation time. */
  lemma MergeKeepsIds(s: Store, others: seq<Contact>, survivor: Id, reparent: bool)
    ensures SameRows(s, Merge(s, others, survivor, reparent))
    ensures Ids(Merge(s, others, survivor, reparent)) == Ids(s)
  {
    var merged := Merge(s, others, survivor, reparent);
    assert forall i :: 0 <= i < |s| ==> merged[i].id == s[i].id;
  }

  /** The match branch keeps a well-formed table well formed. */
  lemma SettleKeepsWf(s: Store, email: Option<string>, phone: Option<string>, now: nat, reparent: bool,
                      survivor: Id, others: seq<Contact>)
    requires Wf(s) && NotAfter(s, now)
    requires Present(email) || Present(phone)
    requires survivor in Ids(s)
    requires forall c :: c in others ==> c.id != survivor
    ensures Wf(Settle(s, email, phone, now, reparent, survivor, others).store)
  {
    var merged := Merge(s, others, survivor, reparent);
    var st := SettleStore(s, email, phone, now, reparent, survivor, others);
    assert Wf(st) by {
      MergeKeepsWf(s, others, survivor, reparent);
      if Novel(Cluster(merged, survivor), email, phone) {
        CreateKeepsWf(merged, email, phone, Secondary, Some(survivor), now);
      }
    }
  }

  /** The table the match branch leaves: the merged table, plus the new secondary when the request is novel. */
  lemma SettleStore(s: Store, email: Option<string>, phone: Option<string>, now: nat, reparent: bool,
                    survivor: Id, others: seq<Contact>)
    returns (st: Store)
    ensures st == Settle(s, email, phone, now, reparent, survivor, others).store
    ensures var merged := Merge(s, others, survivor, reparent);
      st == if Novel(Cluster(merged, survivor), email, phone)
            then Create(merged, email, phone, Secondary, Some(survivor), now)
            else merged
  {
    st := Settle(s, email, phone, now, reparent, survivor, others).store;
  }

  /** A well-formed table stays well formed through one call, in both merge modes. */
  lemma RunKeepsWf(s: Store, email: Option<string>, phone: Option<string>, now: nat, reparent: bool)
    requires Wf(s) && NotAfter(s, now)
    ensures Wf(Run(s, email, phone, now, reparent).store)
  {
    if !Present(email) && !Present(phone) {
    } else if |Matched(s, email, phone)| == 0 {
      CreateKeepsWf(s, email, phone, Primary, None, now);
    } else if SurvivorIn(Expansion(s, email, phone)).Some? {
      var expanded := Expansion(s, email, phone);
      var p := SurvivorIn(expanded).value;
      MatchBranch(s, email, phone, now, reparent);
      SurvivorInTable(s, email, phone);
      SettleKeepsWf(s, email, phone, now, reparent, p.id, OthersOf(expanded, p.id));
    }
  }

  // ---------------------------------------------------------------- branches

  /** Some row of `st` in the cluster of `survivor` carries `v` in column `f`. */
  predicate ClusterCarries(st: Store, survivor: Id, f: Field, v: string) {
    exists i :: 0 <= i < |st| && Touches(st[i], {survivor}) && Carries(st[i], f, v)
  }

  lemma CarriedInCluster(st: Store, survivor: Id, f: Field, v: string)
    ensures Carried(Cluster(st, survivor), f, v) <==> ClusterCarries(st, survivor, f, v)
  {
    var cl := Cluster(st, survivor);
    if Carried(cl, f, v) {
      var k :| 0 <= k < |cl| && Carries(cl[k], f, v);
      assert cl[k] in cl;
      var i :| 0 <= i < |st| && st[i] == cl[k];
    }
    if ClusterCarries(st, survivor, f, v) {
      var i :| 0 <= i < |st| && Touches(st[i], {survivor}) && Carries(st[i], f, v);
      assert st[i] in cl;
      var k :| 0 <= k < |cl| && cl[k] == st[i];
    }
  }

  /** A survivor exists only when something matched; the match branch is then `Settle`. */
  lemma MatchBranch(s: Store, email: Option<string>, phone: Option<string>, now: nat, reparent: bool)
    requires Present(email) || Present(phone)
    requires SurvivorIn(Expansion(s, email, phone)).Some?
    ensures |Matched(s, email, phone)| > 0
    ensures var sv := SurvivorIn(Expansion(s, email, phone)).value.id;
      Run(s, email, phone, now, reparent)
        == Settle(s, email, phone, now, reparent, sv, OthersOf(Expansion(s, email, phone), sv))
  {
  }

  /** The survivor is a row of the table, and its id names only that row in a well-formed table. */
  lemma SurvivorInTable(s: Store, email: Option<string>, phone: Option<string>)
    requires SurvivorIn(Expansion(s, email, phone)).Some?
    ensures var p := SurvivorIn(Expansion(s, email, phone)).value;
      p.id in Ids(s) && IsPrimary(p) && exists j :: 0 <= j < |s| && s[j] == p
  {
    var p := SurvivorIn(Expansion(s, email, phone)).value;
    assert p in s;
    var j :| 0 <= j < |s| && s[j] == p;
  }

  /** Under unique ids, the rows the demotion loop updates are exactly the other primaries of the expansion. */
  lemma DemotedRows(s: Store, expanded: seq<Contact>, survivor: Id, i: nat)
    requires Wf(s)
    requires forall c :: c in expanded ==> c in s
    requires i < |s|
    ensures s[i].id in IdsOf(OthersOf(expanded, survivor))
        <==> s[i] in expanded && IsPrimary(s[i]) && s[i].id != survivor
  {
    var others := OthersOf(expanded, survivor);
    if s[i].id in IdsOf(others) {
      var c :| c in others && c.id == s[i].id;
      var j :| 0 <= j < |s| && s[j] == c;
      assert i == j;
    }
    if s[i] in expanded && IsPrimary(s[i]) && s[i].id != survivor {
      assert s[i] in others;
    }
  }

  /** The match branch keeps the merged table as the prefix of the new one. */
  lemma SettlePrefix(s: Store, email: Option<string>, phone: Option<string>, now: nat, reparent: bool,
                     survivor: Id, others: seq<Contact>)
    ensures var out := Settle(s, email, phone, now, reparent, survivor, others);
      var merged := out.store[..|s|];
      && |s| <= |out.store| <= |s| + 1
      && merged == Merge(s, others, survivor, reparent)
      && (|out.store| == |s| + 1 <==> Novel(Cluster(merged, survivor), email, phone))
  {
  }

  /**
    `st` is `m` with at most one row appended, and that row is a secondary of
    `survivor`: the shape the match branch gives the merged table.
  */
  predicate ExtendsWithSecondary(m: Store, st: Store, survivor: Id) {
    && |m| <= |st| <= |m| + 1
    && st[..|m|] == m
    && (|st| == |m| + 1 ==> !IsPrimary(st[|m|]) && st[|m|].linkedId == Some(survivor))
  }

  /** The match branch appends at most one row, a secondary of the survivor, to the merged table. */
  lemma SettleShape(s: Store, email: Option<string>, phone: Option<string>, now: nat, reparent: bool,
                    survivor: Id, others: seq<Contact>)
    ensures ExtendsWithSecondary(Merge(s, others, survivor, reparent),
                                 Settle(s, email, phone, now, reparent, survivor, others).store, survivor)
  {
  }

  /**
    No row matches: exactly one row is appended, a primary without a link holding
    the request's identifiers, and the reply describes that row alone.
  */
  lemma NoMatchCreatesPrimary(s: Store, email: Option<string>, phone: Option<string>, now: nat, reparent: bool)
    requires Present(email) || Present(phone)
    requires forall i :: 0 <= i < |s| ==> !Matches(s[i], email, phone)
    ensures var out := Run(s, email, phone, now, reparent);
      && |out.store| == |s| + 1 && out.store[..|s|] == s
      && out.store[|s|].id !in Ids(s)
      && out.store[|s|].email == email && out.store[|s|].phoneNumber == phone
      && IsPrimary(out.store[|s|]) && out.store[|s|].linkedId.None?
      && out.reply.Identified?
      && out.reply.view.primaryContactId == out.store[|s|].id
      && (forall v :: v in out.reply.view.emails <==> Present(email) && v == email.value)
      && (forall v :: v in out.reply.view.phoneNumbers <==> Present(phone) && v == phone.value)
      && |out.reply.view.emails| <= 1 && |out.reply.view.phoneNumbers| <= 1
      && out.reply.view.secondaryContactIds == []
  {
  }

  /**
    The code as written: each other primary of the expansion becomes a secondary of
    the survivor; every other existing row, its secondaries included, is left as is.
  */
  lemma DemotesOtherPrimaries(s: Store, email: Option<string>, phone: Option<string>, now: nat)
    requires Wf(s)
    requires Present(email) || Present(phone)
    requires SurvivorIn(Expansion(s, email, phone)).Some?
    ensures var x := Expansion(s, email, phone);
      var sv := SurvivorIn(x).value.id;
      var out := Run(s, email, phone, now, false);
      && |out.store| >= |s|
      && forall i :: 0 <= i < |s| ==>
           out.store[i] == (if s[i] in x && IsPrimary(s[i]) && s[i].id != sv then Demoted(s[i], sv) else s[i])
  {
    var x := Expansion(s, email, phone);
    var sv := SurvivorIn(x).value.id;
    MatchBranch(s, email, phone, now, false);
    var others := OthersOf(x, sv);
    var merged := Merge(s, others, sv, false);
    var out := Run(s, email, phone, now, false);
    assert out.store[..|s|] == merged && |out.store| >= |s| by {
      SettlePrefix(s, email, phone, now, false, sv, others);
    }
    forall i | 0 <= i < |s|
      ensures out.store[i] == (if s[i] in x && IsPrimary(s[i]) && s[i].id != sv then Demoted(s[i], sv) else s[i])
    {
      DemotedRows(s, x, sv, i);
      MergeRow(s, others, sv, false, i);
      assert out.store[i] == out.store[..|s|][i];
    }
  }

  /** Row `i` after the merge: demoted when its id is among `others`, otherwise re-pointed or kept. */
  lemma MergeRow(s: Store, others: seq<Contact>, survivor: Id, reparent: bool, i: nat)
    requires i < |s|
    requires survivor !in IdsOf(others)
    ensures Merge(s, others, survivor, reparent)[i] ==
      if s[i].id in IdsOf(others) then Demoted(s[i], survivor)
      else if reparent && s[i].linkedId.Some? && s[i].linkedId.value in IdsOf(others) then s[i].(linkedId := Some(survivor))
      else s[i]
  {
  }

  /**
    The corrected merge: as above, and in addition every row that linked to a
    demoted primary now links to the survivor.
  */
  lemma ReparentsDemotedClusters(s: Store, email: Option<string>, phone: Option<string>, now: nat)
    requires Wf(s)
    requires Present(email) || Present(phone)
    requires SurvivorIn(Expansion(s, email, phone)).Some?
    ensures var x := Expansion(s, email, phone);
      var sv := SurvivorIn(x).value.id;
      var out := Run(s, email, phone, now, true);
      && |out.store| >= |s|
      && forall i :: 0 <= i < |s| ==>
           out.store[i] ==
             if s[i] in x && IsPrimary(s[i]) && s[i].id != sv then Demoted(s[i], sv)
             else if s[i].linkedId.Some? && s[i].linkedId.value in IdsOf(OthersOf(x, sv)) then s[i].(linkedId := Some(sv))
             else s[i]
  {
    var x := Expansion(s, email, phone);
    var sv := SurvivorIn(x).value.id;
    MatchBranch(s, email, phone, now, true);
    var others := OthersOf(x, sv);
    var merged := Merge(s, others, sv, true);
    var out := Run(s, email, phone, now, true);
    assert out.store[..|s|] == merged && |out.store| >= |s| by {
      SettlePrefix(s, email, phone, now, true, sv, others);
    }
    forall i | 0 <= i < |s|
      ensures out.store[i] ==
             if s[i] in x && IsPrimary(s[i]) && s[i].id != sv then Demoted(s[i], sv)
             else if s[i].linkedId.Some? && s[i].linkedId.value in IdsOf(others) then s[i].(linkedId := Some(sv))
             else s[i]
    {
      DemotedRows(s, x, sv, i);
      MergeRow(s, others, sv, true, i);
      assert out.store[i] == out.store[..|s|][i];
    }
  }

  /** `Settle` adds a row exactly when the request is novel for the merged cluster. */
  lemma SettleAddsWhenNovel(s: Store, email: Option<string>, phone: Option<string>, now: nat, reparent: bool,
                            survivor: Id, others: seq<Contact>)
    ensures var out := Settle(s, email, phone, now, reparent, survivor, others);
      var merged := out.store[..|s|];
      && |s| <= |out.store| <= |s| + 1
      && merged == Merge(s, others, survivor, reparent)
      && (|out.store| == |s| + 1 <==>
            ((Present(email) && !ClusterCarries(merged, survivor, Email, email.value))
          || (Present(phone) && !ClusterCarries(merged, survivor, Phone, phone.value))))
      && (|out.store| == |s| + 1 ==>
            && out.store[|s|].email == email && out.store[|s|].phoneNumber == phone
            && !IsPrimary(out.store[|s|]) && out.store[|s|].linkedId == Some(survivor)
            && out.store[|s|].id !in Ids(merged))
  {
    var merged := Merge(s, others, survivor, reparent);
    SettlePrefix(s, email, phone, now, reparent, survivor, others);
    if Present(email) {
      CarriedInCluster(merged, survivor, Email, email.value);
    }
    if Present(phone) {
      CarriedInCluster(merged, survivor, Phone, phone.value);
    }
  }

  /**
    The match branch adds a row exactly when the request's email or phone is truthy
    and missing from the survivor's cluster after the merge; that row carries the
    request's pair and links to the survivor.
  */
  lemma AddsSecondaryOnlyWhenNovel(s: Store, email: Option<string>, phone: Option<string>, now: nat, reparent: bool)
    requires Wf(s)
    requires Present(email) || Present(phone)
    requires SurvivorIn(Expansion(s, email, phone)).Some?
    ensures var sv := SurvivorIn(Expansion(s, email, phone)).value.id;
      var out := Run(s, email, phone, now, reparent);
      var merged := out.store[..|s|];
      && |s| <= |out.store| <= |s| + 1
      && (|out.store| == |s| + 1 <==>
            ((Present(email) && !ClusterCarries(merged, sv, Email, email.value))
          || (Present(phone) && !ClusterCarries(merged, sv, Phone, phone.value))))
      && (|out.store| == |s| + 1 ==>
            && out.store[|s|].email == email && out.store[|s|].phoneNumber == phone
            && !IsPrimary(out.store[|s|]) && out.store[|s|].linkedId == Some(sv)
            && out.store[|s|].id !in Ids(s))
  {
    var x := Expansion(s, email, phone);
    var sv := SurvivorIn(x).value.id;
    MatchBranch(s, email, phone, now, reparent);
    var others := OthersOf(x, sv);
    MergeKeepsIds(s, others, sv, reparent);
    SettleAddsWhenNovel(s, email, phone, now, reparent, sv, others);
  }

  // ---------------------------------------------------------------- growth

  function CountPrimaries(s: Store): nat {
    if |s| == 0 then 0
    else CountPrimaries(s[..|s| - 1]) + (if IsPrimary(s[|s| - 1]) then 1 else 0)
  }

  /** A table whose primaries are primaries of another, row by row, has no more of them. */
  lemma {:induction false} NoPromotionNoMorePrimaries(a: Store, b: Store)
    requires |a| == |b|
    requires forall i :: 0 <= i < |b| && IsPrimary(b[i]) ==> IsPrimary(a[i])
    ensures CountPrimaries(b) <= CountPrimaries(a)
    decreases |a|
  {
    if |a| > 0 {
      NoPromotionNoMorePrimaries(a[..|a| - 1], b[..|b| - 1]);
    }
  }

  /** `Settle` never adds a primary. */
  lemma SettleAddsNoPrimary(s: Store, email: Option<string>, phone: Option<string>, now: nat, reparent: bool,
                            survivor: Id, others: seq<Contact>)
    ensures CountPrimaries(Settle(s, email, phone, now, reparent, survivor, others).store) <= CountPrimaries(s)
  {
    var merged := Merge(s, others, survivor, reparent);
    var st := Settle(s, email, phone, now, reparent, survivor, others).store;
    SettleShape(s, email, phone, now, reparent, survivor, others);
    assert CountPrimaries(merged) <= CountPrimaries(s) by {
      MergeNeverPromotes(s, others, survivor, reparent);
      NoPromotionNoMorePrimaries(s, merged);
    }
    if |st| == |s| + 1 {
      assert st[..|s|] == merged;
    }
  }

  /** No row is a primary after the merge unless it was one before. */
  lemma MergeNeverPromotes(s: Store, others: seq<Contact>, survivor: Id, reparent: bool)
    ensures var merged := Merge(s, others, survivor, reparent);
      |merged| == |s| && forall i :: 0 <= i < |s| && IsPrimary(merged[i]) ==> IsPrimary(s[i])
  {
  }

  /** When something matches, a call adds at most one row and never adds a primary. */
  lemma MatchNeverAddsPrimaries(s: Store, email: Option<string>, phone: Option<string>, now: nat, reparent: bool)
    requires exists i :: 0 <= i < |s| && Matches(s[i], email, phone)
    ensures var out := Run(s, email, phone, now, reparent);
      |out.store| <= |s| + 1 && CountPrimaries(out.store) <= CountPrimaries(s)
  {
    var x := Expansion(s, email, phone);
    assert |Matched(s, email, phone)| > 0;
    match SurvivorIn(x)
    case None =>
    case Some(p) =>
      SettleAddsNoPrimary(s, email, phone, now, reparent, p.id, OthersOf(x, p.id));
  }

  // ---------------------------------------------------------------- reply

  /** With the survivor's row primary and outside `others`, `Settle` finds it in the final cluster. */
  lemma SettleFindsSurvivor(s: Store, email: Option<string>, phone: Option<string>, now: nat, reparent: bool,
                            survivor: Id, others: seq<Contact>, j: nat)
    requires j < |s| && s[j].id == survivor && IsPrimary(s[j]) && s[j].linkedId.None?
    requires forall c :: c in others ==> c.id != survivor
    ensures var out := Settle(s, email, phone, now, reparent, survivor, others);
      out.reply.Identified? && |out.store| > j && out.store[j] == s[j]
  {
    var merged := Merge(s, others, survivor, reparent);
    var out := Settle(s, email, phone, now, reparent, survivor, others);
    assert merged[j] == s[j] by {
      assert survivor !in IdsOf(others);
    }
    SettleAddsWhenNovel(s, email, phone, now, reparent, survivor, others);
    assert out.store[j] == out.store[..|s|][j];
    var cl := Cluster(out.store, survivor);
    assert s[j] in cl;
    var k :| 0 <= k < |cl| && cl[k] == s[j];
    assert FirstPrimary(cl).Some?;
  }

  /** The match branch of a well-formed table always replies with a view. */
  lemma MatchBranchSucceeds(s: Store, email: Option<string>, phone: Option<string>, now: nat, reparent: bool)
    requires Wf(s)
    requires Present(email) || Present(phone)
    requires SurvivorIn(Expansion(s, email, phone)).Some?
    ensures var sv := SurvivorIn(Expansion(s, email, phone)).value;
      var out := Run(s, email, phone, now, reparent);
      && out.reply.Identified?
      && exists j :: 0 <= j < |s| && s[j] == sv && out.store[j] == sv
  {
    var x := Expansion(s, email, phone);
    var p := SurvivorIn(x).value;
    MatchBranch(s, email, phone, now, reparent);
    SurvivorInTable(s, email, phone);
    var j :| 0 <= j < |s| && s[j] == p;
    SettleFindsSurvivor(s, email, phone, now, reparent, p.id, OthersOf(x, p.id), j);
  }

  /**
    Something matched but the expansion holds no primary: `reduce` throws before
    any write, and the handler answers 500 with the table unchanged.
  */
  lemma NoSurvivorFails(s: Store, email: Option<string>, phone: Option<string>, now: nat, reparent: bool)
    requires Present(email) || Present(phone)
    requires |Matched(s, email, phone)| > 0
    requires SurvivorIn(Expansion(s, email, phone)).None?
    ensures Run(s, email, phone, now, reparent) == Outcome(s, ServerError)
  {
  }

  /**
    On a well-formed table a call answers 500 exactly when something matched but
    the expansion holds no primary, and a 500 leaves the table unchanged.
  */
  lemma ServerErrorExactly(s: Store, email: Option<string>, phone: Option<string>, now: nat, reparent: bool)
    requires Wf(s)
    ensures var out := Run(s, email, phone, now, reparent);
      && (out.reply == ServerError <==>
            (Present(email) || Present(phone)) && |Matched(s, email, phone)| > 0
            && SurvivorIn(Expansion(s, email, phone)).None?)
      && (out.reply == ServerError ==> out.store == s)
  {
    if (Present(email) || Present(phone)) && SurvivorIn(Expansion(s, email, phone)).Some? {
      MatchBranchSucceeds(s, email, phone, now, reparent);
    }
  }

  /** In a well-formed table the only primary of a primary's cluster is that primary. */
  lemma ClusterPrimary(st: Store, survivor: Id)
    requires LinkedIffSecondary(st)
    requires FirstPrimary(Cluster(st, survivor)).Some?
    ensures Cluster(st, survivor)[FirstPrimary(Cluster(st, survivor)).value].id == survivor
  {
    var cl := Cluster(st, survivor);
    var k := FirstPrimary(cl).value;
    assert cl[k] in cl;
    var i :| 0 <= i < |st| && st[i] == cl[k];
  }

  /** In a well-formed table the secondaries of a primary's cluster are the rows linked to it. */
  lemma ClusterSecondaries(st: Store, survivor: Id, j: nat)
    requires UniqueIds(st) && LinkedIffSecondary(st)
    requires j < |st| && st[j].id == survivor && IsPrimary(st[j])
    ensures forall x :: x in SecondaryIds(Cluster(st, survivor)) <==>
      exists i :: 0 <= i < |st| && st[i].linkedId == Some(survivor) && st[i].id == x
  {
    var cl := Cluster(st, survivor);
    forall x | x in SecondaryIds(cl)
      ensures exists i :: 0 <= i < |st| && st[i].linkedId == Some(survivor) && st[i].id == x
    {
      var c :| c in cl && !IsPrimary(c) && c.id == x;
      var i :| 0 <= i < |st| && st[i] == c;
      assert c.id != survivor by {
        assert i != j ==> st[i].id != st[j].id;
      }
      assert st[i].linkedId == Some(survivor);
    }
    forall i | 0 <= i < |st| && st[i].linkedId == Some(survivor)
      ensures st[i].id in SecondaryIds(cl)
    {
      assert st[i] in cl;
    }
  }

  /** The lists of a cluster's view hold exactly the values some row of the cluster carries. */
  lemma ClusterValues(st: Store, survivor: Id)
    ensures forall v :: v in Collect(Cluster(st, survivor), Email) <==> ClusterCarries(st, survivor, Email, v)
    ensures forall v :: v in Collect(Cluster(st, survivor), Phone) <==> ClusterCarries(st, survivor, Phone, v)
  {
    forall v ensures v in Collect(Cluster(st, survivor), Email) <==> ClusterCarries(st, survivor, Email, v) {
      CarriedInCluster(st, survivor, Email, v);
    }
    forall v ensures v in Collect(Cluster(st, survivor), Phone) <==> ClusterCarries(st, survivor, Phone, v) {
      CarriedInCluster(st, survivor, Phone, v);
    }
  }

  /** The view `Settle` replies with, over a well-formed table. */
  lemma SettleReply(s: Store, email: Option<string>, phone: Option<string>, now: nat, reparent: bool,
                    survivor: Id, others: seq<Contact>, j: nat)
    requires Wf(s) && NotAfter(s, now)
    requires Present(email) || Present(phone)
    requires j < |s| && s[j].id == survivor && IsPrimary(s[j])
    requires forall c :: c in others ==> c.id != survivor
    ensures var out := Settle(s, email, phone, now, reparent, survivor, others);
      && out.reply.Identified?
      && out.reply.view.primaryContactId == survivor
      && out.reply.view.emails == Collect(Cluster(out.store, survivor), Email)
      && out.reply.view.phoneNumbers == Collect(Cluster(out.store, survivor), Phone)
      && (forall v :: v in out.reply.view.emails <==> ClusterCarries(out.store, survivor, Email, v))
      && (forall v :: v in out.reply.view.phoneNumbers <==> ClusterCarries(out.store, survivor, Phone, v))
      && (forall x :: x in out.reply.view.secondaryContactIds <==>
            exists i :: 0 <= i < |out.store| && out.store[i].linkedId == Some(survivor) && out.store[i].id == x)
  {
    var out := Settle(s, email, phone, now, reparent, survivor, others);
    assert Wf(out.store) by {
      assert s[j].id in Ids(s);
      SettleKeepsWf(s, email, phone, now, reparent, survivor, others);
    }
    SettleFindsSurvivor(s, email, phone, now, reparent, survivor, others, j);
    ClusterPrimary(out.store, survivor);
    ClusterSecondaries(out.store, survivor, j);
    ClusterValues(out.store, survivor);
  }

  /**
    In the match branch of a well-formed table the reply names the survivor, lists
    each truthy email and phone of its cluster once, in order of first appearance,
    and lists the ids of the rows linked to the survivor.
  */
  lemma ReplyDescribesSurvivorCluster(s: Store, email: Option<string>, phone: Option<string>, now: nat, reparent: bool)
    requires Wf(s) && NotAfter(s, now)
    requires Present(email) || Present(phone)
    requires SurvivorIn(Expansion(s, email, phone)).Some?
    ensures var sv := SurvivorIn(Expansion(s, email, phone)).value.id;
      var out := Run(s, email, phone, now, reparent);
      && out.reply.Identified?
      && out.reply.view.primaryContactId == sv
      && out.reply.view.emails == Collect(Cluster(out.store, sv), Email)
      && out.reply.view.phoneNumbers == Collect(Cluster(out.store, sv), Phone)
      && (forall v :: v in out.reply.view.emails <==> ClusterCarries(out.store, sv, Email, v))
      && (forall v :: v in out.reply.view.phoneNumbers <==> ClusterCarries(out.store, sv, Phone, v))
      && (forall x :: x in out.reply.view.secondaryContactIds <==>
            exists i :: 0 <= i < |out.store| && out.store[i].linkedId == Some(sv) && out.store[i].id == x)
  {
    var x := Expansion(s, email, phone);
    var p := SurvivorIn(x).value;
    MatchBranch(s, email, phone, now, reparent);
    SurvivorInTable(s, email, phone);
    var j :| 0 <= j < |s| && s[j] == p;
    SettleReply(s, email, phone, now, reparent, p.id, OthersOf(x, p.id), j);
  }
}
