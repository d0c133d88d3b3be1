/**
  The two entry points: `identifyContact` as written, and the same handler with
  the corrected merge. Each contract gathers what one call promises: the 400
  case, the old rows keeping everything but their links, a well-formed table
  staying well formed, retries changing nothing, and (for the corrected merge)
  star-shaped tables staying star-shaped and never failing.
*/
module Handler {
  import opened Wrappers
  import opened Contacts
  import opened Identify
  import opened IdentifyProperties
  import opened Reparenting
  import opened Idempotence

  /** `identifyContact` as written. */
  function Resolve(s: Store, email: Option<string>, phone: Option<string>, now: nat): (out: Outcome)
    ensures out.reply == BadRequest <==> !Present(email) && !Present(phone)
    ensures out.reply == BadRequest ==> out.store == s
    ensures |s| <= |out.store| <= |s| + 1 && SameRows(s, out.store[..|s|])
    ensures Wf(s) && NotAfter(s, now) ==> Wf(out.store)
    ensures Wf(s) && NotAfter(s, now) ==> forall now2 :: Run(out.store, email, phone, now2, false) == out
    ensures Star(s) && (Present(email) || Present(phone)) ==> out.reply.Identified?
  {
    var out := Run(s, email, phone, now, false);
    assert Wf(s) && NotAfter(s, now) ==> Wf(out.store) by {
      if Wf(s) && NotAfter(s, now) {
        RunKeepsWf(s, email, phone, now, false);
      }
    }
    assert Wf(s) && NotAfter(s, now) ==> forall now2 :: Run(out.store, email, phone, now2, false) == out by {
      if Wf(s) && NotAfter(s, now) {
        forall now2: nat ensures Run(out.store, email, phone, now2, false) == out {
          Idempotent(s, email, phone, now, now2, false);
        }
      }
    }
    assert Star(s) && (Present(email) || Present(phone)) ==> out.reply.Identified? by {
      if Star(s) && (Present(email) || Present(phone)) {
        NeverFailsOnStar(s, email, phone, now, false);
      }
    }
    out
  }

  /**
    `identifyContact` with the secondaries of a demoted primary re-parented to the
    survivor: in addition, a star-shaped table stays star-shaped, so no later
    request can fail.
  */
  function ResolveReparenting(s: Store, email: Option<string>, phone: Option<string>, now: nat): (out: Outcome)
    ensures out.reply == BadRequest <==> !Present(email) && !Present(phone)
    ensures out.reply == BadRequest ==> out.store == s
    ensures |s| <= |out.store| <= |s| + 1 && SameRows(s, out.store[..|s|])
    ensures Wf(s) && NotAfter(s, now) ==> Wf(out.store)
    ensures Wf(s) && NotAfter(s, now) ==> forall now2 :: Run(out.store, email, phone, now2, true) == out
    ensures Star(s) && (Present(email) || Present(phone)) ==> out.reply.Identified?
    ensures Star(s) && NotAfter(s, now) ==> Star(out.store)
  {
    var out := Run(s, email, phone, now, true);
    assert Wf(s) && NotAfter(s, now) ==> Wf(out.store) by {
      if Wf(s) && NotAfter(s, now) {
        RunKeepsWf(s, email, phone, now, true);
      }
    }
    assert Wf(s) && NotAfter(s, now) ==> forall now2 :: Run(out.store, email, phone, now2, true) == out by {
      if Wf(s) && NotAfter(s, now) {
        forall now2: nat ensures Run(out.store, email, phone, now2, true) == out {
          Idempotent(s, email, phone, now, now2, true);
        }
      }
    }
    assert Star(s) && (Present(email) || Present(phone)) ==> out.reply.Identified? by {
      if Star(s) && (Present(email) || Present(phone)) {
        NeverFailsOnStar(s, email, phone, now, true);
      }
    }
    assert Star(s) && NotAfter(s, now) ==> Star(out.store) by {
      if Star(s) && NotAfter(s, now) {
        ReparentingKeepsStar(s, email, phone, now);
      }
    }
    out
  }
}
