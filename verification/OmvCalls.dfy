/** Calls to an OMV host that may fail, and the scripts that say how. */
module OmvCalls {
  /** What happens to one call: it works, it fails before or after taking effect, or the
      host ends up in any state at all. */
  datatype Turn<S> = Works | FailsBefore | FailsAfter | Anything(after: S, answered: bool)

  /** The host, what will happen to the next calls, and the calls sent so far.  A call
      beyond the script works. */
  datatype Env<S, C> = Env(omv: S, script: seq<Turn<S>>, sent: seq<C>)

  /** One call through the runner, which does not pass on what is not allowed. */
  function Send<S, C>(e: Env<S, C>, c: C, effect: (S, C) -> S, allowed: bool): (Env<S, C>, bool) {
    var sent := e.sent + [c];
    if !allowed then (e.(sent := sent), false)
    else if e.script == [] then (Env(effect(e.omv, c), [], sent), true)
    else
      var rest := e.script[1..];
      match e.script[0]
      case Works => (Env(effect(e.omv, c), rest, sent), true)
      case FailsBefore => (Env(e.omv, rest, sent), false)
      case FailsAfter => (Env(effect(e.omv, c), rest, sent), false)
      case Anything(after, answered) => (Env(after, rest, sent), answered)
  }

  predicate Calm<S>(script: seq<Turn<S>>) {
    script == [] || (script[0].Works? && Calm(script[1..]))
  }

  /** At most one call fails, before or after taking effect. */
  predicate OneFault<S>(script: seq<Turn<S>>) {
    || script == []
    || (script[0].Works? && OneFault(script[1..]))
    || ((script[0].FailsBefore? || script[0].FailsAfter?) && Calm(script[1..]))
  }

  /** Calls may fail, but nothing else happens to the host. */
  predicate Orderly<S>(script: seq<Turn<S>>) {
    forall i :: 0 <= i < |script| ==> !script[i].Anything?
  }

  lemma {:induction false} CalmIsOneFault<S>(script: seq<Turn<S>>)
    requires Calm(script)
    ensures OneFault(script)
  {
    if script != [] {
      CalmIsOneFault(script[1..]);
    }
  }

  lemma SendOneFault<S, C>(e: Env<S, C>, c: C, effect: (S, C) -> S)
    requires OneFault(e.script)
    ensures var (e', ok) := Send(e, c, effect, true);
            && OneFault(e'.script) && (ok || Calm(e'.script)) && (Calm(e.script) ==> ok && Calm(e'.script))
            && (e'.omv == effect(e.omv, c) || (!ok && e'.omv == e.omv))
  {
    if e.script != [] && Calm(e.script[1..]) {
      CalmIsOneFault(e.script[1..]);
    }
  }
}
