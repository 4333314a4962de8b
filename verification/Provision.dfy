/** The account a stack deploys into, and what applying and destroying a graph of resources do to it. */
module Provision {
  import opened Wrappers

  /** The kinds of resource a graph holds, and any other word a report puts before a name. */
  datatype Kind =
    | Queue | Topic | Bucket | Table | Function | Rule | Key | Secret | Parameter | Api
    | StateMachine | Activity | LogGroup | Layer | Connection | ApiDestination
    | ApiKey | UsagePlan | Alarm | Dashboard
    | OtherWord(text: string)

  /** A resource as reports name it: kind/name. */
  datatype Res = Res(kind: Kind, name: string)

  datatype Op = Created | Updated | Published | Skipped

  /** One line of an apply report. */
  datatype Action = Action(op: Op, resource: Res)

  /** How an apply goes: where it stops if it fails, how far it got by then, and what it reports. */
  datatype ApplyRun = ApplyRun(error: Option<ApplyError>, reached: set<Res>, actions: seq<Action>)

  /** A name collision found before anything was touched, or an error met on the way. */
  datatype ApplyError = Taken(name: string) | Failed(message: string)

  /** Apply creates what is missing and never deletes; one that succeeds leaves the whole graph there. */
  function Applied(world: set<Res>, ir: set<Res>, run: ApplyRun): set<Res> {
    world + (if run.error.None? then ir else ir * run.reached)
  }

  /** What an apply brought into being. */
  function Made(world: set<Res>, ir: set<Res>, run: ApplyRun): set<Res> {
    Applied(world, ir, run) - world
  }

  /** Destroy removes what it can of what it is given. */
  function Destroyed(world: set<Res>, what: set<Res>, stuck: set<Res>): set<Res> {
    world - (what - stuck)
  }

  function NamesOf(rs: set<Res>): set<string> {
    set r | r in rs :: r.name
  }

  /** The kinds whose name AWS holds unique, which are the ones looked for before a create. */
  predicate Probed(kind: Kind) {
    match kind
    case Queue | Topic | Bucket | Table | Function | Secret | Parameter | StateMachine | Rule | Connection
       | ApiDestination | Dashboard | LogGroup | Alarm | Key => true
    case _ => false
  }

  /** The kinds taken to be only ever put, and so to report "updated" whether or not they existed. */
  predicate UpsertOnly(kind: Kind) {
    kind.Rule? || kind.Alarm? || kind.Dashboard? || kind.Connection? || kind.ApiDestination? || kind.Layer?
  }

  /** The operation the last line about a resource reports, if any. */
  function LastOp(actions: seq<Action>, r: Res): Option<Op> {
    if actions == [] then None
    else
      var last := actions[|actions| - 1];
      if last.resource == r then Some(last.op) else LastOp(actions[..|actions| - 1], r)
  }

  /** The operation each reported name was last reported with. */
  method Did(actions: seq<Action>) returns (did: map<Res, Op>)
    ensures forall r :: r in did ==> LastOp(actions, r) == Some(did[r])
    ensures forall r :: r !in did ==> LastOp(actions, r) == None
  {
    did := map[];
    for i := 0 to |actions|
      invariant forall r :: r in did ==> LastOp(actions[..i], r) == Some(did[r])
      invariant forall r :: r !in did ==> LastOp(actions[..i], r) == None
    {
      assert actions[..i + 1][..i] == actions[..i];
      did := did[actions[i].resource := actions[i].op];
    }
    assert actions[..|actions|] == actions;
  }

  /** Whether the last line says the apply itself made the resource. */
  predicate SaysMade(actions: seq<Action>, r: Res) {
    var op := LastOp(actions, r);
    op == Some(Created) || op == Some(Published) || (op == Some(Updated) && UpsertOnly(r.kind))
  }
}
