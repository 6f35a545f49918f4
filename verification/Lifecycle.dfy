/**
 The collector of Gc in the runs of Publication (src/core/compact.c:970-1038): what a piece of
 claimed work does to the disk is a step that the path's state allows.
 */
module Lifecycle {
  import opened Basics
  import Gc
  import P = Publication
  import opened PointerSafety

  /** The work is on generation `g`, the collector found the path as it is, and noted what the records count. */
  ghost predicate WorksOn(s: P.State, g: P.Gen, w: Gc.Work, v: Gc.View) {
    && s.pc == P.Collecting && FoundAsIs(s, v) && (v.activeIsVictim <==> s.visible == Some(g))
    && g in s.pending && !w.legacy && w.install == s.pending[g].install && w.openAtClaim == P.OpenCount(s, g)
    && (w.legacyRefs <==> P.Refs(s, None) > 0)
  }

  /** The work is on the record of the legacy pair. */
  ghost predicate WorksOnLegacy(s: P.State, w: Gc.Work, v: Gc.View) {
    && s.pc == P.Collecting && FoundAsIs(s, v) && (v.activeIsVictim <==> s.visible.None?)
    && w.legacy && (w.install ==> s.legacyPending) && (w.legacyRefs <==> P.Refs(s, None) > 0)
  }

  /** Resolving the path gives the generation of `.current`, or the legacy pair without one. */
  predicate FoundAsIs(s: P.State, v: Gc.View) {
    v.activeIsLegacy <==> s.visible.None?
  }

  /** Collecting a generation takes only steps that are enabled; retirement follows removal. */
  lemma CollectorStepsAreEnabled(s: P.State, g: P.Gen, w: Gc.Work, v: Gc.View)
    requires WorksOn(s, g, w, v)
    ensures Gc.InstallsAliases(w, v) ==> P.Enabled(s, P.InstallAliases)
    ensures Gc.RemovesStorage(w, v) ==> P.Enabled(s, P.Remove(g))
    ensures Gc.Decide(w, v) == Gc.RETIRED ==>
              P.Enabled(s, P.Remove(g)) && P.Enabled(P.After(s, P.Remove(g)), P.Retire(g))
  {
    if Gc.Decide(w, v) == Gc.RETIRED { Gc.RetiredMeansUnopened(w, v); }
  }

  /** Collecting the legacy record removes nothing and installs aliases only where that is enabled. */
  lemma LegacyCollectorStepsAreEnabled(s: P.State, w: Gc.Work, v: Gc.View)
    requires WorksOnLegacy(s, w, v)
    ensures Gc.InstallsAliases(w, v) ==> P.Enabled(s, P.InstallAliases)
    ensures !Gc.RemovesStorage(w, v)
  {
  }

  /**
   In every heedful run - in particular in every run whose unlinks are clean - when the collector
   decides to remove the files of a generation, no value `.current` may have after a power loss
   names it, and the state stays safe.
   */
  lemma CollectorRemovesOnlyUnreachable(s: P.State, actions: seq<P.Action>, g: P.Gen, w: Gc.Work, v: Gc.View)
    requires P.Initial(s) && P.RunOf(s, actions).Some? && (HeedfulRun(s, actions) || CleanUnlinks(actions))
    requires WorksOn(P.RunOf(s, actions).value, g, w, v) && Gc.RemovesStorage(w, v)
    ensures var now := P.RunOf(s, actions).value;
            && Some(g) !in now.surviving && P.Unopened(now, Some(g))
            && P.Enabled(now, P.Remove(g)) && P.Safe(P.After(now, P.Remove(g)))
  {
    var now := P.RunOf(s, actions).value;
    CollectorStepsAreEnabled(now, g, w, v);
    hide P.Inv, P.CarefulRun, P.RunOf, Gc.RemovesStorage, P.Initial, HeedfulRun, CleanUnlinks;
    if CleanUnlinks(actions) { CleanUnlinksStayCalm(s, actions); }
    CarefulIffHeedful(s, actions);
    P.CarefulRunsRemoveUnreachable(s, actions, g);
    P.RunKeepsInv(s, actions);
    P.StepKeepsInv(now, P.Remove(g));
    InvIsSafe(P.After(now, P.Remove(g)));
  }

  lemma InvIsSafe(s: P.State)
    requires P.Inv(s)
    ensures P.Safe(s)
  {
  }
}
