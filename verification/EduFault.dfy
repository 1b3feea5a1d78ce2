/** The fault switch, by what is written to it and what the checks reply. */
module EduFault {
  import opened EduRing
  import opened EduWorld

  /** The step has the last word on whether the next matching check fails: a store
      that is accepted, or a check that finds the bytes it wants. */
  predicate Speaks(w: World, ev: Event)
    requires Shaped(w.dev.ring)
  {
    (ev.InjectStore? && ReplyTo(w.dev, ev) == Code(OK)) || (ev.DmaCheck? && DmaMatches(w.dev.ring))
  }

  ghost predicate SpeaksAt(w: World, evs: seq<Event>, k: nat)
    requires Shaped(w.dev.ring)
  {
    k < |evs| && Speaks(Run(w, evs[..k]), evs[k])
  }

  /** The latest of them in the run is a store of 1. */
  ghost predicate ArmedLast(w: World, evs: seq<Event>)
    requires Shaped(w.dev.ring)
  {
    exists k: nat :: SpeaksAt(w, evs, k) && evs[k] == InjectStore(Number(1)) && LastToSpeak(w, evs, k)
  }

  ghost predicate LastToSpeak(w: World, evs: seq<Event>, k: nat)
    requires Shaped(w.dev.ring)
  {
    forall j: nat :: k < j < |evs| ==> !SpeaksAt(w, evs, j)
  }

  lemma SpeaksBefore(w: World, evs: seq<Event>, ev: Event, k: nat)
    requires Shaped(w.dev.ring) && k < |evs|
    ensures SpeaksAt(w, evs + [ev], k) <==> SpeaksAt(w, evs, k)
  {
    assert (evs + [ev])[..k] == evs[..k];
  }

  lemma SpeaksLast(w: World, evs: seq<Event>, ev: Event)
    requires Shaped(w.dev.ring)
    ensures SpeaksAt(w, evs + [ev], |evs|) <==> Speaks(Run(w, evs), ev)
  {
    assert (evs + [ev])[..|evs|] == evs;
  }

  lemma {:induction false} ArmedLastExtends(w: World, evs: seq<Event>, ev: Event)
    requires Shaped(w.dev.ring)
    ensures ArmedLast(w, evs + [ev]) <==>
            if Speaks(Run(w, evs), ev) then ev == InjectStore(Number(1)) else ArmedLast(w, evs)
  {
    var all, n := evs + [ev], |evs|;
    SpeaksLast(w, evs, ev);
    forall k: nat | k < n
      ensures SpeaksAt(w, all, k) <==> SpeaksAt(w, evs, k)
    {
      SpeaksBefore(w, evs, ev, k);
    }
    hide SpeaksAt, Speaks, Run;
    if Speaks(Run(w, evs), ev) {
      assert all[n] == ev && SpeaksAt(w, all, n);
      if ev == InjectStore(Number(1)) {
        assert LastToSpeak(w, all, n);
      }
    } else {
      if k: nat :| SpeaksAt(w, evs, k) && evs[k] == InjectStore(Number(1)) && LastToSpeak(w, evs, k) {
        assert k < n by { SpeaksInRange(w, evs, k); }
        assert all[k] == evs[k] && LastToSpeak(w, all, k);
      }
      if k: nat :| SpeaksAt(w, all, k) && all[k] == InjectStore(Number(1)) && LastToSpeak(w, all, k) {
        assert k < |all| by { SpeaksInRange(w, all, k); }
        assert k != n && evs[k] == all[k] && LastToSpeak(w, evs, k);
      }
    }
  }

  lemma SpeaksInRange(w: World, evs: seq<Event>, k: nat)
    requires Shaped(w.dev.ring) && SpeaksAt(w, evs, k)
    ensures k < |evs|
  {
  }

  lemma SwitchStep(w: World, ev: Event)
    requires Shaped(w.dev.ring)
    ensures var d' := Step(w, ev).dev;
      d'.injectFault == 1 <==>
      if Speaks(w, ev) then ev == InjectStore(Number(1)) else w.dev.injectFault == 1
  {
    hide DmaMatches, Lowest, Post, Accept, Take, Restart;
  }

  lemma {:induction false} SwitchFollows(w: World, evs: seq<Event>)
    requires Shaped(w.dev.ring) && w.dev.injectFault == 0
    ensures Run(w, evs).dev.injectFault == 1 <==> ArmedLast(w, evs)
    decreases |evs|
  {
    if evs != [] {
      var before, ev := evs[..|evs| - 1], evs[|evs| - 1];
      assert evs == before + [ev];
      SwitchFollows(w, before);
      RunSplits(w, before, [ev]);
      RunOne(Run(w, before), ev);
      SwitchStep(Run(w, before), ev);
      ArmedLastExtends(w, before, ev);
      hide Step, Run, Speaks, ArmedLast;
    }
  }

  /** After any run since probe, a check that finds its bytes fails if and only if,
      of the accepted stores and of the checks that found theirs, the latest was a
      store of 1. A check that does not find its bytes always fails. */
  lemma {:induction false} CheckFailsIffArmedLast(boot: World, evs: seq<Event>, w: World)
    requires boot == Boot() && w == Run(boot, evs)
    ensures ReplyTo(w.dev, DmaCheck) ==
            Code(if DmaMatches(w.dev.ring) && !ArmedLast(boot, evs) then OK else EIO)
  {
    assert boot.dev.injectFault == 0;
    hide Boot, ArmedLast, DmaMatches;
    SwitchFollows(boot, evs);
    hide Run;
  }

  /** What a write to the switch returns; a write that is refused changes nothing. */
  lemma StoreIsAcceptedIff(w: World, val: Parsed)
    requires Shaped(w.dev.ring)
    ensures ReplyTo(w.dev, InjectStore(val)) == Code(OK) <==> val == Number(0) || val == Number(1)
    ensures ReplyTo(w.dev, InjectStore(val)) == Code(ERANGE) <==> val == TooLarge
    ensures ReplyTo(w.dev, InjectStore(val)) == Code(EINVAL) <==> val == Malformed || (val.Number? && val.n > 1)
    ensures ReplyTo(w.dev, InjectStore(val)) != Code(OK) ==> Step(w, InjectStore(val)) == w
  {
  }
}
