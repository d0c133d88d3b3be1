/**
  Repeating a successful request: the second call finds the cluster the first one
  built, changes nothing and sends the same reply, in both merge modes.
*/
module Idempotence {
  import opened Wrappers
  import opened Contacts
  import opened Identify
  import opened IdentifyProperties

  /** A duplicate-free list holding exactly the truthy value of `o` is `Singleton(o)`. */
  lemma {:induction false} OnlyValue(r: seq<string>, o: Option<string>)
    requires forall i, j :: 0 <= i < j < |r| ==> r[i] != r[j]
    requires forall v :: v in r <==> Present(o) && v == o.value
    ensures r == Singleton(o)
  {
    Heads(r);
    if Present(o) {
      assert o.value in r;
      assert r == [o.value];
    }
  }

  /** A list with no members is empty. */
  lemma NoMembers<T>(r: seq<T>)
    requires forall v :: v !in r
    ensures r == []
  {
    Heads(r);
  }

  /** The first two elements of a list are members of it. */
  lemma Heads<T>(r: seq<T>)
    ensures |r| > 0 ==> r[0] in r
    ensures |r| > 1 ==> r[1] in r
  {
  }

  // ---------------------------------------------------------------- after a new primary

  /** No row of a well-formed table touches the id the next insert receives. */
  lemma FreshUntouched(s: Store)
    requires Wf(s)
    ensures forall c :: c in s ==> !Touches(c, {FreshId(s)})
  {
    forall c | c in s ensures !Touches(c, {FreshId(s)}) {
      var i :| 0 <= i < |s| && s[i] == c;
      if c.linkedId.Some? {
        var j :| 0 <= j < |s| && s[j].id == c.linkedId.value;
      }
    }
  }

  /** After a call that created primary `n`, the same request matches only `n`, so `n` is its one anchor. */
  lemma AfterNewPrimaryAnchors(s: Store, email: Option<string>, phone: Option<string>, now: nat)
    requires forall i :: 0 <= i < |s| ==> !Matches(s[i], email, phone)
    requires Present(email) || Present(phone)
    ensures var s1 := Create(s, email, phone, Primary, None, now);
      Anchors(Matched(s1, email, phone)) == {s1[|s|].id}
  {
    var s1 := Create(s, email, phone, Primary, None, now);
    var n := s1[|s|];
    var matched := Matched(s1, email, phone);
    assert forall c :: c in matched ==> c == n by {
      assert s1 == s + [n];
      forall c | c in s ensures !Matches(c, email, phone) {
        var i :| 0 <= i < |s| && s[i] == c;
      }
    }
    assert n in matched;
    var anchors := Anchors(matched);
    assert Contributes(n, n.id);
    forall a | a in anchors ensures a == n.id {
      var c :| c in matched && Contributes(c, a);
    }
  }

  /** ... and the expansion of that anchor is `n` alone. */
  lemma AfterNewPrimaryExpansion(s: Store, email: Option<string>, phone: Option<string>, now: nat)
    requires forall c :: c in s ==> !Touches(c, {FreshId(s)})
    requires Present(email) || Present(phone)
    requires forall i :: 0 <= i < |s| ==> !Matches(s[i], email, phone)
    ensures var s1 := Create(s, email, phone, Primary, None, now);
      var x := Expansion(s1, email, phone);
      && s1[|s|] in x
      && forall c :: c in x ==> c == s1[|s|]
  {
    var s1 := Create(s, email, phone, Primary, None, now);
    assert s1 == s + [s1[|s|]];
    AfterNewPrimaryAnchors(s, email, phone, now);
  }

  /** After a call that created primary `n`, the cluster of `n` is `n` alone. */
  lemma AfterNewPrimaryCluster(s: Store, email: Option<string>, phone: Option<string>, now: nat)
    requires forall c :: c in s ==> !Touches(c, {FreshId(s)})
    ensures var s1 := Create(s, email, phone, Primary, None, now);
      var cl := Cluster(s1, s1[|s|].id);
      && s1[|s|] in cl
      && forall c :: c in cl ==> c == s1[|s|]
  {
    var s1 := Create(s, email, phone, Primary, None, now);
    assert s1 == s + [s1[|s|]];
  }

  /** The view of a cluster made of the single row `n`. */
  lemma SingleRowView(cl: seq<Contact>, n: Contact)
    requires n in cl && IsPrimary(n)
    requires forall c :: c in cl ==> c == n
    ensures Consolidate(cl) == Some(View(n.id, Singleton(n.email), Singleton(n.phoneNumber), []))
    ensures Present(n.email) ==> Carried(cl, Email, n.email.value)
    ensures Present(n.phoneNumber) ==> Carried(cl, Phone, n.phoneNumber.value)
  {
    var k :| 0 <= k < |cl| && cl[k] == n;
    assert FirstPrimary(cl).Some?;
    assert cl[FirstPrimary(cl).value] in cl;
    forall v ensures v in Collect(cl, Email) <==> Present(n.email) && v == n.email.value {
      if Carried(cl, Email, v) {
        var i :| 0 <= i < |cl| && Carries(cl[i], Email, v);
        assert cl[i] in cl;
      }
      assert Present(n.email) && v == n.email.value ==> Carries(cl[k], Email, v);
    }
    forall v ensures v in Collect(cl, Phone) <==> Present(n.phoneNumber) && v == n.phoneNumber.value {
      if Carried(cl, Phone, v) {
        var i :| 0 <= i < |cl| && Carries(cl[i], Phone, v);
        assert cl[i] in cl;
      }
      assert Present(n.phoneNumber) && v == n.phoneNumber.value ==> Carries(cl[k], Phone, v);
    }
    OnlyValue(Collect(cl, Email), n.email);
    OnlyValue(Collect(cl, Phone), n.phoneNumber);
    NoMembers(SecondaryIds(cl));
  }

  /** With nothing to demote, the merge leaves the table as it is. */
  lemma MergeNothing(s: Store, survivor: Id, reparent: bool)
    ensures Merge(s, [], survivor, reparent) == s
  {
    assert IdsOf([]) == {};
  }

  /**
    The match branch with nothing to demote and nothing novel writes nothing and
    replies with the view of the survivor's cluster.
  */
  lemma SettleIdle(s: Store, email: Option<string>, phone: Option<string>, now: nat, reparent: bool,
                   survivor: Id, v: View)
    requires !Novel(Cluster(s, survivor), email, phone)
    requires Consolidate(Cluster(s, survivor)) == Some(v)
    ensures Settle(s, email, phone, now, reparent, survivor, []) == Outcome(s, Identified(v))
  {
    MergeNothing(s, survivor, reparent);
  }

  /** The first call of a request nothing matches: one new primary and its one-row view. */
  lemma NoMatchOutcome(s: Store, email: Option<string>, phone: Option<string>, now: nat, reparent: bool)
    requires Present(email) || Present(phone)
    requires forall i :: 0 <= i < |s| ==> !Matches(s[i], email, phone)
    ensures var s1 := Create(s, email, phone, Primary, None, now);
      Run(s, email, phone, now, reparent)
        == Outcome(s1, Identified(View(s1[|s|].id, Singleton(email), Singleton(phone), [])))
  {
    assert |Matched(s, email, phone)| == 0;
  }

  /** Repeating a request that created a primary changes nothing and sends the same reply. */
  lemma RepeatAfterNewPrimary(s: Store, email: Option<string>, phone: Option<string>, now: nat, now2: nat, reparent: bool)
    requires Wf(s)
    requires Present(email) || Present(phone)
    requires forall i :: 0 <= i < |s| ==> !Matches(s[i], email, phone)
    ensures var out := Run(s, email, phone, now, reparent);
      Run(out.store, email, phone, now2, reparent) == out
  {
    var s1 := Create(s, email, phone, Primary, None, now);
    var n := s1[|s|];
    var v := View(n.id, Singleton(email), Singleton(phone), []);
    NoMatchOutcome(s, email, phone, now, reparent);
    FreshUntouched(s);
    AfterNewPrimaryExpansion(s, email, phone, now);
    var x := Expansion(s1, email, phone);
    assert PrimariesOf(x) != [] by { assert n in PrimariesOf(x); }
    var sv := SurvivorIn(x).value;
    assert sv == n;
    NoMembers(OthersOf(x, n.id));
    AfterNewPrimaryCluster(s, email, phone, now);
    SingleRowView(Cluster(s1, n.id), n);
    SettleIdle(s1, email, phone, now2, reparent, n.id, v);
    MatchBranch(s1, email, phone, now2, reparent);
  }

  // ---------------------------------------------------------------- after a match

  /** After the match branch the survivor's cluster carries every identifier of the request. */
  lemma SettleCovers(s: Store, email: Option<string>, phone: Option<string>, now: nat, reparent: bool,
                     survivor: Id, others: seq<Contact>)
    ensures var st := Settle(s, email, phone, now, reparent, survivor, others).store;
      && (Present(email) ==> ClusterCarries(st, survivor, Email, email.value))
      && (Present(phone) ==> ClusterCarries(st, survivor, Phone, phone.value))
  {
    var st := Settle(s, email, phone, now, reparent, survivor, others).store;
    SettleAddsWhenNovel(s, email, phone, now, reparent, survivor, others);
    if |st| == |s| + 1 {
      assert Touches(st[|s|], {survivor});
      assert Present(email) ==> Carries(st[|s|], Email, email.value);
      assert Present(phone) ==> Carries(st[|s|], Phone, phone.value);
    } else {
      assert st == st[..|s|];
    }
  }

  /** The reply of a successful match branch is the view of the survivor's cluster in the new table. */
  lemma SettleView(s: Store, email: Option<string>, phone: Option<string>, now: nat, reparent: bool,
                   survivor: Id, others: seq<Contact>)
    ensures var out := Settle(s, email, phone, now, reparent, survivor, others);
      out.reply.Identified? ==> Consolidate(Cluster(out.store, survivor)) == Some(out.reply.view)
  {
  }

  /**
    After the merge every row either is a secondary of the survivor or is the row
    that stood there before, and the other primaries of the expansion are demoted.
  */
  lemma MergeRows(s: Store, x: seq<Contact>, sv: Id, reparent: bool)
    requires Wf(s)
    requires forall c :: c in x ==> c in s
    ensures var merged := Merge(s, OthersOf(x, sv), sv, reparent);
      && |merged| == |s|
      && (forall k :: 0 <= k < |s| ==>
            (!IsPrimary(merged[k]) && merged[k].linkedId == Some(sv)) || merged[k] == s[k])
      && (forall k :: 0 <= k < |s| && s[k] in x && IsPrimary(s[k]) && s[k].id != sv ==> !IsPrimary(merged[k]))
  {
    var others := OthersOf(x, sv);
    var merged := Merge(s, others, sv, reparent);
    MergeFacts(s, others, sv, reparent);
    forall k | 0 <= k < |s| && s[k] in x && IsPrimary(s[k]) && s[k].id != sv
      ensures !IsPrimary(merged[k])
    {
      DemotedRows(s, x, sv, k);
      assert DemoteAll(s, others, sv)[k] == Demoted(s[k], sv);
    }
  }

  /** The same two facts survive appending a secondary of the survivor. */
  lemma ExtendRows(s: Store, m: Store, st: Store, x: seq<Contact>, sv: Id)
    requires |m| == |s|
    requires forall k :: 0 <= k < |s| ==> (!IsPrimary(m[k]) && m[k].linkedId == Some(sv)) || m[k] == s[k]
    requires forall k :: 0 <= k < |s| && s[k] in x && IsPrimary(s[k]) && s[k].id != sv ==> !IsPrimary(m[k])
    requires ExtendsWithSecondary(m, st, sv)
    ensures |s| <= |st|
    ensures forall k :: 0 <= k < |st| ==>
      (!IsPrimary(st[k]) && st[k].linkedId == Some(sv)) || (k < |s| && st[k] == s[k])
    ensures forall k :: 0 <= k < |s| && s[k] in x && IsPrimary(s[k]) && s[k].id != sv ==> !IsPrimary(st[k])
  {
    assert forall k :: 0 <= k < |s| ==> st[k] == st[..|m|][k];
  }

  /**
    A table whose rows relate to `s` as the match branch leaves them: the only
    primary a matched row of it leads to is the survivor `sv`.
  */
  lemma AnchorsAfter(s: Store, st: Store, email: Option<string>, phone: Option<string>, sv: Id)
    requires |s| <= |st|
    requires forall k :: 0 <= k < |st| ==>
      (!IsPrimary(st[k]) && st[k].linkedId == Some(sv)) || (k < |s| && st[k] == s[k])
    requires forall k :: 0 <= k < |s| && s[k] in Expansion(s, email, phone) && IsPrimary(s[k]) && s[k].id != sv ==>
      !IsPrimary(st[k])
    ensures forall i :: 0 <= i < |st| && IsPrimary(st[i]) && st[i].id in Anchors(Matched(st, email, phone)) ==>
      st[i].id == sv
  {
    var x := Expansion(s, email, phone);
    var a1 := Anchors(Matched(s, email, phone));
    var a2 := Anchors(Matched(st, email, phone));
    forall i | 0 <= i < |st| && IsPrimary(st[i]) && st[i].id in a2 ensures st[i].id == sv {
      var a := st[i].id;
      var m :| m in Matched(st, email, phone) && Contributes(m, a);
      var k :| 0 <= k < |st| && st[k] == m;
      assert a == sv || a in a1 by {
        if !(!IsPrimary(st[k]) && st[k].linkedId == Some(sv)) {
          assert k < |s| && st[k] == s[k];
          assert s[k] in Matched(s, email, phone);
        }
      }
      if a in a1 {
        assert i < |s| && st[i] == s[i];
        assert Touches(s[i], a1);
        assert s[i] in x;
      }
    }
  }

  /** A row of the cluster of primary `st[j]` that carries a requested identifier makes `st[j]` an anchor again. */
  lemma SurvivorAnchored(st: Store, email: Option<string>, phone: Option<string>, j: nat)
    requires UniqueIds(st)
    requires j < |st| && IsPrimary(st[j])
    requires Present(email) || Present(phone)
    requires Present(email) ==> ClusterCarries(st, st[j].id, Email, email.value)
    requires Present(phone) ==> ClusterCarries(st, st[j].id, Phone, phone.value)
    ensures st[j].id in Anchors(Matched(st, email, phone))
  {
    var sv := st[j].id;
    var f := if Present(email) then Email else Phone;
    var w := if Present(email) then email.value else phone.value;
    var i :| 0 <= i < |st| && Touches(st[i], {sv}) && Carries(st[i], f, w);
    assert Matches(st[i], email, phone);
    assert st[i] in Matched(st, email, phone);
    if st[i].id == sv {
      assert i == j;
    } else {
      assert st[i].linkedId == Some(sv);
    }
    assert Contributes(st[i], sv);
  }

  /**
    A second call on a well-formed table whose cluster around primary `sv` already
    carries the request, and where every matched row leads to `sv` alone, writes
    nothing and replies with that cluster's view.
  */
  lemma SecondCallIdle(st: Store, email: Option<string>, phone: Option<string>, now: nat, reparent: bool,
                       j: nat, v: View)
    requires UniqueIds(st) && LinkedIffSecondary(st)
    requires j < |st| && IsPrimary(st[j])
    requires Present(email) || Present(phone)
    requires Present(email) ==> ClusterCarries(st, st[j].id, Email, email.value)
    requires Present(phone) ==> ClusterCarries(st, st[j].id, Phone, phone.value)
    requires forall i :: 0 <= i < |st| && IsPrimary(st[i]) && st[i].id in Anchors(Matched(st, email, phone)) ==>
      st[i].id == st[j].id
    requires Consolidate(Cluster(st, st[j].id)) == Some(v)
    ensures Run(st, email, phone, now, reparent) == Outcome(st, Identified(v))
  {
    var sv := st[j].id;
    if Present(email) {
      CarriedInCluster(st, sv, Email, email.value);
    }
    if Present(phone) {
      CarriedInCluster(st, sv, Phone, phone.value);
    }
    assert !Novel(Cluster(st, sv), email, phone);
    SurvivorAnchored(st, email, phone, j);
    var x2 := Expansion(st, email, phone);
    assert Touches(st[j], Anchors(Matched(st, email, phone)));
    assert st[j] in x2;
    forall c | c in x2 && IsPrimary(c) ensures c.id == sv {
      var k :| 0 <= k < |st| && st[k] == c;
    }
    assert SurvivorIn(x2).value.id == sv;
    NoMembers(OthersOf(x2, sv));
    SettleIdle(st, email, phone, now, reparent, sv, v);
    MatchBranch(st, email, phone, now, reparent);
  }

  /** Repeating a request that matched changes nothing and sends the same reply. */
  lemma RepeatAfterMatch(s: Store, email: Option<string>, phone: Option<string>, now: nat, now2: nat, reparent: bool)
    requires Wf(s) && NotAfter(s, now)
    requires Present(email) || Present(phone)
    requires SurvivorIn(Expansion(s, email, phone)).Some?
    ensures var out := Run(s, email, phone, now, reparent);
      Run(out.store, email, phone, now2, reparent) == out
  {
    var x := Expansion(s, email, phone);
    var pv := SurvivorIn(x).value;
    var sv := pv.id;
    var others := OthersOf(x, sv);
    var out := Run(s, email, phone, now, reparent);
    var st := out.store;
    MatchBranch(s, email, phone, now, reparent);
    MatchBranchSucceeds(s, email, phone, now, reparent);
    RunKeepsWf(s, email, phone, now, reparent);
    SettleView(s, email, phone, now, reparent, sv, others);
    SettleCovers(s, email, phone, now, reparent, sv, others);
    SettleShape(s, email, phone, now, reparent, sv, others);
    MergeRows(s, x, sv, reparent);
    ExtendRows(s, Merge(s, others, sv, reparent), st, x, sv);
    AnchorsAfter(s, st, email, phone, sv);
    var j :| 0 <= j < |s| && s[j] == pv && st[j] == pv;
    SecondCallIdle(st, email, phone, now2, reparent, j, out.reply.view);
  }

  // ---------------------------------------------------------------- the theorem

  /**
    Retrying a request on the table the first call left behind, at any later time,
    writes nothing and sends the same reply: the handler is idempotent per request,
    in both merge modes and whatever the first reply was.
  */
  lemma Idempotent(s: Store, email: Option<string>, phone: Option<string>, now: nat, now2: nat, reparent: bool)
    requires Wf(s) && NotAfter(s, now)
    ensures var out := Run(s, email, phone, now, reparent);
      Run(out.store, email, phone, now2, reparent) == out
  {
    if !Present(email) && !Present(phone) {
    } else if |Matched(s, email, phone)| == 0 {
      RepeatAfterNewPrimary(s, email, phone, now, now2, reparent);
    } else if SurvivorIn(Expansion(s, email, phone)).None? {
    } else {
      RepeatAfterMatch(s, email, phone, now, now2, reparent);
    }
  }
}
