/** The state every combiner works on: the per-thread queues, the last ticks passed on, and the
    messages sent to the reporter, together with the threads that publish into the queues. */
module CombinerQueues {
  import opened CombinerModel
  import opened CombinerOrder
  import opened CombinerFlush

  lemma GrownSelf(s: State)
    requires Inv(s)
    ensures Grown(s, s)
  {
  }

  class Combine {
    const parallel: bool
    var queues: seq<seq<Result>>
    var lastCountTick: Key
    var lastTsTick: Key
    /** Messages sent to the reporter. */
    var sent: seq<Result>
    /** What each thread is still going to publish. */
    var pending: seq<seq<Result>>
    ghost var st: State

    ghost predicate Valid()
      reads this
    {
      && Inv(st)
      && Holds(st)
      && sent == Sent(st.log)
    }

    constructor (parallel: bool, inputs: seq<seq<Result>>)
      requires |inputs| > 0
      ensures Valid() && st.inputs == inputs && st.log == [] && st.acts == [] && this.parallel == parallel
      ensures pending == inputs && forall t :: 0 <= t < |queues| ==> queues[t] == []
    {
      this.parallel := parallel;
      queues := seq(|inputs|, _ => []);
      lastCountTick, lastTsTick := 0, 0;
      sent := [];
      pending := inputs;
      st := State(parallel, inputs, inputs, seq(|inputs|, _ => []), [], [], 0, 0);
    }

    /** Thread `t` publishes its next result. */
    method Publish(t: nat)
      requires Valid() && t < |queues| && pending[t] != []
      modifies this
      ensures Valid() && st == CombinerModel.Publish(old(st), t)
    {
      PublishKeeps(st, t);
      queues := queues[t := queues[t] + [pending[t][0]]];
      pending := pending[t := pending[t][1..]];
      st := CombinerModel.Publish(st, t);
    }

    /** Whatever the publishing threads do between two queue operations of the reporter. */
    method Interfere()
      requires Valid()
      modifies this
      ensures Valid() && Grown(old(st), st) && Work(st) == Work(old(st))
    {
      var steps: int := *;
      while steps > 0
        invariant Valid() && Grown(old(st), st) && Work(st) == Work(old(st))
      {
        var t: int := *;
        if 0 <= t < |pending| && pending[t] != [] {
          PublishWork(st, t);
          PublishKeeps(st, t);
          GrownTransitive(old(st), st, CombinerModel.Publish(st, t));
          Publish(t);
        }
        steps := steps - 1;
      }
    }

    /** Take the head of queue `t` out. */
    method PopFront(t: nat)
      requires t < |queues| && queues[t] != []
      modifies this`queues
      ensures queues == old(queues)[t := old(queues)[t][1..]]
    {
      queues := queues[t := queues[t][1..]];
    }

    /** The fields hold what `s` says. */
    ghost predicate Holds(s: State)
      reads this
    {
      && s.parallel == parallel
      && s.queues == queues
      && s.pending == pending
      && s.lastCount == lastCountTick
      && s.lastTs == lastTsTick
    }

    /** The threads publish whatever they have left and finish. */
    method Finish()
      requires Valid()
      modifies this
      ensures Valid() && Grown(old(st), st) && Quiet(st)
    {
      hide Conserved, Deduplicated, Grown, Sent;
      GrownSelf(st);
      for t := 0 to |queues|
        invariant Valid() && Grown(old(st), st) && |queues| == |old(queues)|
        invariant forall u :: 0 <= u < t ==> pending[u] == []
      {
        while pending[t] != []
          invariant Valid() && Grown(old(st), st) && |queues| == |old(queues)|
          invariant forall u :: 0 <= u < t ==> pending[u] == []
          decreases |pending[t]|
        {
          PublishKeeps(st, t);
          GrownTransitive(old(st), st, CombinerModel.Publish(st, t));
          Publish(t);
        }
      }
    }
  }
}
