/**
 The client's side of one migration as an automaton: which request it issues
 next and how a reply moves it. The loops of the client are proved to follow
 it, and the protocol model runs any number of copies of it.
 */
module Sender {
  import opened Codes
  import opened Transfer

  datatype Work =
    | Chunked(policy: Policy, plan: seq<Chunk>)
    | Bulk(sources: seq<Bytes>)

  /** One call to remi_fileset_migrate: target root, resolved names, declared sizes and modes, what to send. */
  datatype Job = Job(root: string, names: seq<string>, sizes: seq<nat>, modes: seq<nat>, work: Work)

  datatype Request =
    | Start(root: string, names: seq<string>, sizes: seq<nat>, modes: seq<nat>)
    | Write(chunk: Chunk)
    | Pull(segments: seq<Bytes>)  // the client memory exposed for the bulk transfer
    | End

  /** Ready(k, last): k transfer requests answered, `last` is the last return code. */
  datatype Sender = Idle | Ready(next: nat, last: int) | Done(ret: int, status: Option<int>)

  function Steps(w: Work): nat {
    if w.Chunked? then |w.plan| else 1
  }

  /** The request the client has to issue now, if it has not returned. */
  function Wants(j: Job, s: Sender): Option<Request> {
    match s
    case Idle => Some(Start(j.root, j.names, j.sizes, j.modes))
    case Ready(k, _) =>
      if k >= Steps(j.work) then Some(End)
      else match j.work {
        case Chunked(_, plan) => Some(Write(plan[k]))
        case Bulk(srcs) => Some(Pull(NonEmpty(srcs)))
      }
    case Done(_, _) => None
  }

  /**
   A failure ends the transfer at once, except in the sequential loop, which
   goes on and looks at the last return code only.
   */
  function Settle(j: Job, k: nat, ret: int): Sender {
    if ret != SUCCESS && (k >= Steps(j.work) || !(j.work.Chunked? && j.work.policy.Sequential?)) then Done(ret, None)
    else Ready(k, ret)
  }

  /** `status` stays as the caller left it (None) unless a reply sets it. */
  function OnReply(j: Job, s: Sender, ret: int, status: int): Sender {
    match s
    case Idle =>
      if ret != SUCCESS then Done(ret, if ret == ERR_USER then Some(status) else None)
      else Ready(0, SUCCESS)
    case Ready(k, _) =>
      if k >= Steps(j.work) then Done(ret, Some(if ret == ERR_USER then status else 0))
      else Settle(j, k + 1, ret)
    case Done(_, _) => s
  }

  /** A request and the reply it got. */
  datatype Exchange = Exchange(req: Request, ret: int, status: int)

  /** The automaton run over a log of exchanges; None when the log is not one it can produce. */
  function Replay(j: Job, s: Sender, log: seq<Exchange>): Option<Sender>
    decreases |log|
  {
    if log == [] then Some(s)
    else if Wants(j, s) == Some(log[0].req) then Replay(j, OnReply(j, s, log[0].ret, log[0].status), log[1..])
    else None
  }

  lemma {:induction false} ReplayAppend(j: Job, s: Sender, a: seq<Exchange>, b: seq<Exchange>)
    ensures Replay(j, s, a + b) ==
            match Replay(j, s, a) { case None => None case Some(t) => Replay(j, t, b) }
    decreases |a|
  {
    if a == [] {
      assert a + b == b;
    } else {
      assert (a + b)[0] == a[0] && (a + b)[1..] == a[1..] + b;
      if Wants(j, s) == Some(a[0].req) {
        ReplayAppend(j, OnReply(j, s, a[0].ret, a[0].status), a[1..], b);
      }
    }
  }

  /** A job that sends exactly `srcs`, in one of the three ways. */
  ghost predicate Sends(j: Job, srcs: seq<Bytes>) {
    && |j.names| == |srcs|
    && j.sizes == Sizes(srcs)
    && (forall f <- srcs :: |f| < OFFSET_LIMIT)
    && match j.work
       case Bulk(d) => d == srcs
       case Chunked(p, plan) => exists xfer: nat :: xfer > 0 && plan == Plan(p, srcs, xfer, 0)
  }
}
