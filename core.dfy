/** `Core` of `aionbot-core`: runs every handler on an event, in order,
    stopping at the first handler that fails. */
module Cores {
  import opened Common
  import Routers
  import opened Entries
  import opened Handlers

  class Core {
    var handlers: seq<Handler>

    /** `Core::input`: `traces[i]` and `outcomes[i]` are what handler `i`
        invoked and returned; the handlers run in order, each as
        `Handler::input` does, and the first error is the result. */
    method Input(event: Routers.DynEvent, call: (CallbackId, Routers.DynEvent) -> Result<string>)
      returns (res: Result<()>, traces: seq<seq<Entry>>, outcomes: seq<Result<()>>)
      ensures |traces| == |outcomes| <= |handlers|
      ensures forall i | 0 <= i < |outcomes| ::
                Dispatched(Matching(handlers[i].entries, event), event, call, outcomes[i], traces[i])
      ensures forall i | 0 <= i < |outcomes| - 1 :: outcomes[i].Ok?
      ensures res.Err? ==> outcomes != [] && res == outcomes[|outcomes| - 1]
      ensures res.Ok? <==> |outcomes| == |handlers| && forall i | 0 <= i < |outcomes| :: outcomes[i].Ok?
    {
      traces, outcomes := [], [];
      for i := 0 to |handlers|
        invariant |traces| == |outcomes| == i
        invariant forall j | 0 <= j < i ::
                    Dispatched(Matching(handlers[j].entries, event), event, call, outcomes[j], traces[j])
        invariant forall j | 0 <= j < i :: outcomes[j].Ok?
      {
        var r, t := handlers[i].Input(event, call);
        traces, outcomes := traces + [t], outcomes + [r];
        if r.Err? {
          return r, traces, outcomes;
        }
      }
      return Ok(()), traces, outcomes;
    }
  }
}
