/** ProcessPendingWork, which both trackers share: the notification
    handler raises a flag and a polling loop acts on it, one pass at a
    time, until the flag says Done. */
module PendingWork {

  /** PendingWorkType. */
  datatype Work = NoWork | RequestData | ProcessResults | Done

  /** What one pass of the loop does besides updating the flag. */
  datatype Action = Exit | Request | Export | Wait

  /** One pass: the loop leaves on Done; RequestData and ProcessResults are
      consumed before the work they start; anything else sleeps. */
  function Pass(w: Work): (r: (Action, Work))
    ensures r.0 == Exit <==> w == Done
    ensures r.0 == Request <==> w == RequestData
    ensures r.0 == Export <==> w == ProcessResults
    ensures r.0 == Request ==> r.1 == NoWork
    ensures r.0 == Export ==> r.1 == Done
    ensures r.0 == Exit || r.0 == Wait ==> r.1 == w
  {
    match w
    case Done => (Exit, Done)
    case RequestData => (Request, NoWork)
    case ProcessResults => (Export, Done)
    case NoWork => (Wait, NoWork)
  }

  /** The actions of `n` passes when no notification arrives in between;
      nothing follows an Exit. */
  function Passes(w: Work, n: nat): seq<Action>
    decreases n
  {
    if n == 0 then []
    else
      var (action, next) := Pass(w);
      if action == Exit then [action] else [action] + Passes(next, n - 1)
  }

  function Occurrences(acts: seq<Action>, a: Action): nat
  {
    if |acts| == 0 then 0
    else (if acts[0] == a then 1 else 0) + Occurrences(acts[1..], a)
  }

  /** Left alone, the loop requests data at most once and exports at most
      once; it exits only if it was started on ProcessResults or Done; and
      after a request it idles until a notification moves the flag. */
  lemma {:induction false} Unattended(w: Work, n: nat)
    ensures Occurrences(Passes(w, n), Request) <= 1
    ensures Occurrences(Passes(w, n), Export) <= 1
    ensures Exit in Passes(w, n) ==> w == ProcessResults || w == Done
    ensures w == RequestData || w == NoWork ==> Exit !in Passes(w, n) && Occurrences(Passes(w, n), Export) == 0
    ensures w == NoWork ==> Occurrences(Passes(w, n), Request) == 0
    ensures w == ProcessResults && n >= 2 ==> Passes(w, n) == [Export, Exit]
    decreases n
  {
    if n > 0 {
      var (action, next) := Pass(w);
      Unattended(next, n - 1);
      if action != Exit {
        var acts := Passes(w, n);
        assert acts == [action] + Passes(next, n - 1);
        assert acts[1..] == Passes(next, n - 1);
        if w == ProcessResults && n >= 2 {
          assert Passes(next, n - 1) == [Exit];
        }
      }
    }
  }
}
