/**
  Star-shaped clusters and the merge. On a table whose links all point at
  primaries the handler never fails; the merge as written can leave a row linked
  to a demoted primary, after which a request matching only that row fails,
  while the re-parenting merge keeps every cluster a star.
*/
module Reparenting {
  import opened Wrappers
  import opened Contacts
  import opened Identify
  import opened IdentifyProperties

  /** A matched row leads to a primary when every secondary links to one. */
  lemma SurvivorExists(s: Store, email: Option<string>, phone: Option<string>)
    requires LinksToPrimaries(s)
    requires forall i :: 0 <= i < |s| && !IsPrimary(s[i]) ==> s[i].linkedId.Some?
    requires |Matched(s, email, phone)| > 0
    ensures SurvivorIn(Expansion(s, email, phone)).Some?
  {
    var matched := Matched(s, email, phone);
    var x := Expansion(s, email, phone);
    var c := matched[0];
    assert c in matched;
    var i :| 0 <= i < |s| && s[i] == c;
    if IsPrimary(c) {
      assert Contributes(c, c.id);
      assert c in x;
    } else {
      var y := c.linkedId.value;
      assert Contributes(c, y);
      assert y in PrimaryIds(s);
      var k :| 0 <= k < |s| && IsPrimary(s[k]) && s[k].id == y;
      assert s[k] in x;
    }
  }

  /** In a star-shaped table every expansion of a non-empty match holds a primary. */
  lemma SurvivorExistsOnStar(s: Store, email: Option<string>, phone: Option<string>)
    requires Star(s)
    requires |Matched(s, email, phone)| > 0
    ensures SurvivorIn(Expansion(s, email, phone)).Some?
  {
    SurvivorExists(s, email, phone);
  }

  /** On a star-shaped table a request with an identifier always gets a view, in both merge modes. */
  lemma NeverFailsOnStar(s: Store, email: Option<string>, phone: Option<string>, now: nat, reparent: bool)
    requires Star(s)
    requires Present(email) || Present(phone)
    ensures Run(s, email, phone, now, reparent).reply.Identified?
  {
    if |Matched(s, email, phone)| > 0 {
      SurvivorExistsOnStar(s, email, phone);
      MatchBranchSucceeds(s, email, phone, now, reparent);
    }
  }

  /** Appending rows keeps every primary id. */
  lemma PrimaryIdsPrefix(a: Store, b: Store)
    requires |a| <= |b| && b[..|a|] == a
    ensures PrimaryIds(a) <= PrimaryIds(b)
  {
    forall z | z in PrimaryIds(a) ensures z in PrimaryIds(b) {
      var k :| 0 <= k < |a| && IsPrimary(a[k]) && a[k].id == z;
      assert b[k] == b[..|a|][k];
    }
  }

  /** The re-parenting merge leaves every link of a star-shaped table pointing at a primary. */
  lemma MergeReparentingKeepsLinks(s: Store, others: seq<Contact>, survivor: Id, j: nat)
    requires Star(s)
    requires j < |s| && s[j].id == survivor && IsPrimary(s[j])
    requires forall c :: c in others ==> c.id != survivor
    ensures var m := Merge(s, others, survivor, true);
      && survivor in PrimaryIds(m)
      && forall i :: 0 <= i < |m| && m[i].linkedId.Some? ==> m[i].linkedId.value in PrimaryIds(m)
  {
    var demoted := DemoteAll(s, others, survivor);
    var m := Merge(s, others, survivor, true);
    MergeFacts(s, others, survivor, true);
    assert survivor !in IdsOf(others);
    assert survivor in PrimaryIds(m) by {
      assert m[j] == s[j];
    }
    forall i | 0 <= i < |m| && m[i].linkedId.Some? && m[i] == s[i]
      ensures m[i].linkedId.value in PrimaryIds(m)
    {
      var z := s[i].linkedId.value;
      assert z !in IdsOf(others);
      assert z in PrimaryIds(s);
      var k :| 0 <= k < |s| && IsPrimary(s[k]) && s[k].id == z;
      assert demoted[k] == s[k];
      assert m[k] == s[k];
    }
  }

  /** Appending a secondary of a primary keeps every link pointing at a primary. */
  lemma ExtendKeepsLinks(m: Store, st: Store, survivor: Id)
    requires ExtendsWithSecondary(m, st, survivor)
    requires survivor in PrimaryIds(m)
    requires forall i :: 0 <= i < |m| && m[i].linkedId.Some? ==> m[i].linkedId.value in PrimaryIds(m)
    ensures forall i :: 0 <= i < |st| && st[i].linkedId.Some? ==> st[i].linkedId.value in PrimaryIds(st)
  {
    PrimaryIdsPrefix(m, st);
    forall i | 0 <= i < |st| && st[i].linkedId.Some?
      ensures st[i].linkedId.value in PrimaryIds(st)
    {
      if i < |m| {
        assert st[i] == st[..|m|][i];
      }
    }
  }

  /** Inserting a new primary keeps every link pointing at a primary. */
  lemma CreatePrimaryKeepsLinks(s: Store, email: Option<string>, phone: Option<string>, now: nat)
    requires LinksToPrimaries(s)
    ensures LinksToPrimaries(Create(s, email, phone, Primary, None, now))
  {
    var st := Create(s, email, phone, Primary, None, now);
    PrimaryIdsPrefix(s, st);
    forall i | 0 <= i < |st| && st[i].linkedId.Some?
      ensures st[i].linkedId.value in PrimaryIds(st)
    {
      assert st[i] == st[..|s|][i];
    }
  }

  /** The match branch of the corrected handler keeps every link pointing at a primary. */
  lemma MatchKeepsLinks(s: Store, email: Option<string>, phone: Option<string>, now: nat)
    requires Star(s)
    requires Present(email) || Present(phone)
    requires |Matched(s, email, phone)| > 0
    ensures LinksToPrimaries(Run(s, email, phone, now, true).store)
  {
    var st := Run(s, email, phone, now, true).store;
    SurvivorExistsOnStar(s, email, phone);
    var x := Expansion(s, email, phone);
    var p := SurvivorIn(x).value;
    MatchBranch(s, email, phone, now, true);
    SurvivorInTable(s, email, phone);
    var j :| 0 <= j < |s| && s[j] == p;
    MergeReparentingKeepsLinks(s, OthersOf(x, p.id), p.id, j);
    SettleShape(s, email, phone, now, true, p.id, OthersOf(x, p.id));
    ExtendKeepsLinks(Merge(s, OthersOf(x, p.id), p.id, true), st, p.id);
  }

  /** The corrected handler keeps a star-shaped table star-shaped. */
  lemma ReparentingKeepsStar(s: Store, email: Option<string>, phone: Option<string>, now: nat)
    requires Star(s) && NotAfter(s, now)
    ensures Star(Run(s, email, phone, now, true).store)
  {
    RunKeepsWf(s, email, phone, now, true);
    if !Present(email) && !Present(phone) {
    } else if |Matched(s, email, phone)| == 0 {
      CreatePrimaryKeepsLinks(s, email, phone, now);
    } else {
      MatchKeepsLinks(s, email, phone, now);
    }
  }

  // ---------------------------------------------------------------- the stranded secondary

  /** Two distinct truthy emails `a`, `b` and a truthy phone `ph`. */
  predicate Distinct3(a: string, b: string, ph: string) {
    a != "" && b != "" && ph != "" && a != b
  }

  /**
    A star-shaped table: primary 1 with email `a`, primary 2 with phone `ph`, and
    row 3 (`b`, `ph`) a secondary of primary 2.
  */
  function TwoClusters(a: string, b: string, ph: string): Store {
    [ Contact(1, Some(a), None, Primary, None, 1),
      Contact(2, None, Some(ph), Primary, None, 2),
      Contact(3, Some(b), Some(ph), Secondary, Some(2), 3) ]
  }

  /** The table the code as written leaves after request (`a`, `ph`): row 3 still links to the demoted row 2. */
  function Stranded(a: string, b: string, ph: string): Store {
    [ Contact(1, Some(a), None, Primary, None, 1),
      Contact(2, None, Some(ph), Secondary, Some(1), 2),
      Contact(3, Some(b), Some(ph), Secondary, Some(2), 3) ]
  }

  lemma TwoClustersShape(a: string, b: string, ph: string)
    requires Distinct3(a, b, ph)
    ensures Star(TwoClusters(a, b, ph))
  {
    var s := TwoClusters(a, b, ph);
    assert Ids(s) == {1, 2, 3} by {
      assert s[0].id == 1 && s[1].id == 2 && s[2].id == 3;
    }
    assert 2 in PrimaryIds(s) by {
      assert IsPrimary(s[1]);
    }
  }

  /** The stranded table is well formed but not star-shaped: row 3 links to a secondary. */
  lemma StrandedShape(a: string, b: string, ph: string)
    requires Distinct3(a, b, ph)
    ensures Wf(Stranded(a, b, ph)) && !Star(Stranded(a, b, ph))
  {
    var st := Stranded(a, b, ph);
    assert Ids(st) == {1, 2, 3} by {
      assert st[0].id == 1 && st[1].id == 2 && st[2].id == 3;
    }
    assert 2 !in PrimaryIds(st);
  }

  /** On request (`a`, `ph`) the expansion holds rows 1 and 2, both primaries. */
  lemma ExpansionOfTwoClusters(a: string, b: string, ph: string)
    requires Distinct3(a, b, ph)
    ensures var s := TwoClusters(a, b, ph);
      var x := Expansion(s, Some(a), Some(ph));
      s[0] in x && s[1] in x && forall c :: c in x ==> c in s
  {
    var s := TwoClusters(a, b, ph);
    var matched := Matched(s, Some(a), Some(ph));
    assert s[0] in matched && s[1] in matched;
    assert Contributes(s[0], 1) && Contributes(s[1], 2);
  }

  /** On request (`a`, `ph`) row 1 survives over row 2, the one other primary of the expansion. */
  lemma MergeOfTwoClusters(a: string, b: string, ph: string)
    requires Distinct3(a, b, ph)
    ensures var x := Expansion(TwoClusters(a, b, ph), Some(a), Some(ph));
      && SurvivorIn(x) == Some(TwoClusters(a, b, ph)[0])
      && IdsOf(OthersOf(x, 1)) == {2}
  {
    var s := TwoClusters(a, b, ph);
    var x := Expansion(s, Some(a), Some(ph));
    ExpansionOfTwoClusters(a, b, ph);
    var sv := SurvivorIn(x).value;
    assert sv == s[0] by {
      assert sv in x;
      var i :| 0 <= i < |s| && s[i] == sv;
      assert sv.createdAt <= s[0].createdAt && IsPrimary(sv);
      assert i == 0 || i == 1 || i == 2;
      assert s[1].createdAt > s[0].createdAt && !IsPrimary(s[2]);
    }
    OthersOfTwoClusters(a, b, ph);
  }

  lemma OthersOfTwoClusters(a: string, b: string, ph: string)
    requires Distinct3(a, b, ph)
    ensures IdsOf(OthersOf(Expansion(TwoClusters(a, b, ph), Some(a), Some(ph)), 1)) == {2}
  {
    var s := TwoClusters(a, b, ph);
    var x := Expansion(s, Some(a), Some(ph));
    ExpansionOfTwoClusters(a, b, ph);
    var others := OthersOf(x, 1);
    assert s[1] in others;
    forall c | c in others ensures c == s[1] {
      assert c in x;
      var i :| 0 <= i < |s| && s[i] == c;
      assert i == 0 || i == 1 || i == 2;
      assert s[0].id == 1 && !IsPrimary(s[2]);
    }
  }

  /** Demoting the rows with id 2 in favour of row 1 yields the stranded table. */
  lemma DemotionOfTwoClusters(a: string, b: string, ph: string, others: seq<Contact>)
    requires Distinct3(a, b, ph)
    requires IdsOf(others) == {2}
    ensures Merge(TwoClusters(a, b, ph), others, 1, false) == Stranded(a, b, ph)
  {
    var s := TwoClusters(a, b, ph);
    var m := Merge(s, others, 1, false);
    assert m[0] == s[0];
    assert m[1] == Demoted(s[1], 1);
    assert m[2] == s[2];
  }

  /** Nothing is novel for the merged cluster of row 1: row 1 has the email, row 2 the phone. */
  lemma StrandedClusterCoversRequest(a: string, b: string, ph: string)
    requires Distinct3(a, b, ph)
    ensures !Novel(Cluster(Stranded(a, b, ph), 1), Some(a), Some(ph))
  {
    var st := Stranded(a, b, ph);
    var cl := Cluster(st, 1);
    assert st[0] in cl && st[1] in cl;
    var i :| 0 <= i < |cl| && cl[i] == st[0];
    var k :| 0 <= k < |cl| && cl[k] == st[1];
    assert Carries(cl[i], Email, a);
    assert Carries(cl[k], Phone, ph);
  }

  /** The match branch as written, once the survivor is row 1 and row 2 the one to demote. */
  lemma SettleOfTwoClusters(a: string, b: string, ph: string, others: seq<Contact>)
    requires Distinct3(a, b, ph)
    requires IdsOf(others) == {2}
    ensures var out := Settle(TwoClusters(a, b, ph), Some(a), Some(ph), 4, false, 1, others);
      out.store == Stranded(a, b, ph) && out.reply == Identified(View(1, [a], [ph], [2]))
  {
    DemotionOfTwoClusters(a, b, ph, others);
    StrandedClusterCoversRequest(a, b, ph);
    StrandedView(a, b, ph);
  }

  /**
    The view of row 1 in the stranded table: only rows 1 and 2 are in its cluster,
    so row 3, its email `b` and its id are missing.
  */
  lemma StrandedView(a: string, b: string, ph: string)
    requires Distinct3(a, b, ph)
    ensures Consolidate(Cluster(Stranded(a, b, ph), 1)) == Some(View(1, [a], [ph], [2]))
  {
    var st := Stranded(a, b, ph);
    StrandedCluster(a, b, ph);
    var cl := [st[0], st[1]];
    assert Collect(cl, Email) == [a] by {
      assert cl[..1] == [st[0]];
      assert Collect([st[0]], Email) == [a];
    }
    assert Collect(cl, Phone) == [ph] by {
      assert cl[..1] == [st[0]];
      assert Collect([st[0]], Phone) == [];
    }
    assert SecondaryIds(cl) == [2] by {
      assert cl[1..] == [st[1]];
      assert SecondaryIds([st[1]]) == [2];
    }
  }

  /** The cluster of row 1 in the stranded table is rows 1 and 2. */
  lemma StrandedCluster(a: string, b: string, ph: string)
    requires Distinct3(a, b, ph)
    ensures var st := Stranded(a, b, ph); Cluster(st, 1) == [st[0], st[1]]
  {
    var st := Stranded(a, b, ph);
    var p := (c: Contact) => Touches(c, {1});
    assert st == [st[0], st[1], st[2]];
    SelectFirstTwo(st[0], st[1], st[2], p);
  }

  /** A query over three rows of which exactly the first two qualify. */
  lemma SelectFirstTwo(x: Contact, y: Contact, z: Contact, p: Contact -> bool)
    requires p(x) && p(y) && !p(z)
    ensures Select([x, y, z], p) == [x, y]
  {
    assert [x, y, z][..2] == [x, y];
    assert [x, y][..1] == [x];
    assert [x][..0] == [];
  }

  /**
    The code as written, on request (`a`, `ph`): the two clusters merge into row 1,
    and row 3 is left linked to the demoted row 2. The reply already shows it:
    the view lists rows 1 and 2 only, without row 3's email `b` or its id.
  */
  lemma AsWrittenStrandsSecondary(a: string, b: string, ph: string)
    requires Distinct3(a, b, ph)
    ensures Star(TwoClusters(a, b, ph))
    ensures Run(TwoClusters(a, b, ph), Some(a), Some(ph), 4, false).store == Stranded(a, b, ph)
    ensures Run(TwoClusters(a, b, ph), Some(a), Some(ph), 4, false).reply == Identified(View(1, [a], [ph], [2]))
    ensures Wf(Stranded(a, b, ph)) && !Star(Stranded(a, b, ph))
  {
    var s := TwoClusters(a, b, ph);
    TwoClustersShape(a, b, ph);
    MergeOfTwoClusters(a, b, ph);
    var others := OthersOf(Expansion(s, Some(a), Some(ph)), 1);
    MatchBranch(s, Some(a), Some(ph), 4, false);
    SettleOfTwoClusters(a, b, ph, others);
    StrandedShape(a, b, ph);
  }

  /**
    The code as written, next request (`b`): it matches only row 3, whose anchor 2 is
    no longer a primary, so the expansion holds no primary, `reduce` throws, and the
    reply is a 500 with the table unchanged.
  */
  lemma AsWrittenFailsAfterMerge(a: string, b: string, ph: string)
    requires Distinct3(a, b, ph)
    ensures Run(Stranded(a, b, ph), Some(b), None, 5, false) == Outcome(Stranded(a, b, ph), ServerError)
  {
    var s := Stranded(a, b, ph);
    var e: Option<string> := Some(b);
    var matched := Matched(s, e, None);
    assert s[2] in matched;
    forall c | c in matched ensures c == s[2] {
      var i :| 0 <= i < |s| && s[i] == c;
      assert i == 0 || i == 1 || i == 2;
    }
    var anchors := Anchors(matched);
    assert anchors == {2};
    var x := Expansion(s, e, None);
    forall c | c in x ensures !IsPrimary(c) {
      var i :| 0 <= i < |s| && s[i] == c;
      assert i == 0 || i == 1 || i == 2;
    }
  }
}
