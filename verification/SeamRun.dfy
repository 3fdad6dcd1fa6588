/** The closed system: both databases, the running handlers of both sides, and the network.
    The network keeps every message ever sent and delivers any of them at any time, so messages may be
    lost, duplicated and reordered. Handlers interleave between their statements. */
module SeamRun {
  import opened SeamTypes
  import opened BppSteps
  import BapSteps

  datatype World = World(
    bpp: BppDb, tasks: seq<BppTask>, bap: BapDb, jobs: seq<BapSteps.BapTask>, net: set<Msg>)

  datatype Label =
    | Deliver(msg: Msg)
    | Notify(invoice: string, requestId: string, amount: int)
    | Frontend(call: BapSteps.Call)
    | BppRuns(i: nat, env: Env)
    | BapRuns(i: nat, env: Env)

  function Initial(): World {
    World(BppDb(map[], [], 1, [], {}), [], BapDb(map[], [], []), [], {})
  }

  function AfterBpp(w: World, i: nat, e: BppEffect): World
    requires i < |w.tasks|
  {
    w.(bpp := e.db, tasks := w.tasks[i := e.task], net := w.net + e.out)
  }

  function AfterBap(w: World, i: nat, e: BapSteps.BapEffect): World
    requires i < |w.jobs|
  {
    w.(bap := e.db, jobs := w.jobs[i := e.task] + e.spawned, net := w.net + e.out)
  }

  /** One step of the system. A label that is not enabled changes nothing. */
  function Next(quote: int -> int, w: World, l: Label): World {
    match l
    case Deliver(m) =>
      if m !in w.net then w
      else if BapSteps.IsCallback(m) then w.(jobs := w.jobs + [BapSteps.Callback(m)])
      else w.(tasks := w.tasks + [Receive(m)])
    case Notify(invoice, requestId, amount) =>
      w.(tasks := w.tasks + [Notified(invoice, requestId, amount)])
    case Frontend(call) =>
      w.(jobs := w.jobs + [BapSteps.Start(call)])
    case BppRuns(i, env) =>
      if i < |w.tasks| then AfterBpp(w, i, BppStep(quote, w.bpp, w.tasks[i], env)) else w
    case BapRuns(i, env) =>
      if i < |w.jobs| then AfterBap(w, i, BapSteps.BapStep(w.bap, w.jobs[i], env)) else w
  }

  /** The state after a run. */
  function Run(quote: int -> int, run: seq<Label>): World {
    if run == [] then Initial()
    else Next(quote, Run(quote, run[..|run| - 1]), run[|run| - 1])
  }

  /** Every step of the run satisfies the condition, judged on the state it starts from. */
  ghost predicate Along(quote: int -> int, run: seq<Label>, condition: (World, Label) -> bool) {
    run == [] ||
    (Along(quote, run[..|run| - 1], condition) && condition(Run(quote, run[..|run| - 1]), run[|run| - 1]))
  }
}
