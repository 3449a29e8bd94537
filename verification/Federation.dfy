/** The federation poller: failure counters of the process, stored node states, and exponential backoff. */
module Federation {
  import opened Runs
  import opened Timeline

  datatype Status = Unknown | Up | Degraded | Down

  datatype Node = Node(status: Status, lastCheck: Time, consecutiveFailures: int, nextRetryAt: Time)

  /** The poller's memory: a counter for every node polled in this process, and the state of every known node. */
  datatype Memory = Memory(counters: map<string, int>, nodes: map<string, Node>)

  datatype Config = Config(servers: set<string>, threshold: int, backoffMax: Time, syncInterval: Time)

  /** How a poll ends: a usable answer, a timeout or HTTP error, or any other exception. */
  datatype Outcome = Healthy | HttpError | OtherError

  /** Counters are never negative. */
  function Pow2(n: int): int {
    if n <= 0 then 1 else 2 * Pow2(n - 1)
  }

  /** The wait after the f-th consecutive failure. */
  function Backoff(f: int, cfg: Config): Time {
    if Pow2(f) as real <= cfg.backoffMax then Pow2(f) as real else cfg.backoffMax
  }

  function Failures(m: Memory, id: string): int {
    if id in m.counters then m.counters[id] else 0
  }

  function StatusOf(m: Memory, id: string): Status {
    if id in m.nodes then m.nodes[id].status else Unknown
  }

  predicate Open(m: Memory, id: string, cfg: Config) {
    id in m.counters && m.counters[id] >= cfg.threshold
  }

  function AfterFailure(failures: int, now: Time, cfg: Config): Node {
    Node(if failures >= cfg.threshold then Down else Degraded, now, failures,
         now + Backoff(failures, cfg))
  }

  function Poll(m: Memory, id: string, outcome: Outcome, now: Time, cfg: Config): Memory {
    if id !in cfg.servers || Open(m, id, cfg) then m
    else match outcome
      case Healthy => Memory(m.counters[id := 0], m.nodes[id := Node(Up, now, 0, 0.0)])
      case HttpError =>
        var failures := Failures(m, id) + 1;
        Memory(m.counters[id := failures], m.nodes[id := AfterFailure(failures, now, cfg)])
      case OtherError => m
  }

  predicate Due(node: Node, now: Time) {
    node.status == Unknown || node.nextRetryAt <= now
  }

  predicate Chosen(m: Memory, id: string, now: Time, cfg: Config) {
    && id in m.nodes
    && (|| Due(m.nodes[id], now)
        || (id in cfg.servers && m.nodes[id].status == Up && now - m.nodes[id].lastCheck >= cfg.syncInterval))
  }

  class Poller {
    const cfg: Config
    var counters: map<string, int>
    var nodes: map<string, Node>

    /** The stored states are loaded, and nodes seen for the first time are added as unknown. */
    constructor (cfg: Config, stored: map<string, Node>)
      ensures this.cfg == cfg && counters == map[]
      ensures nodes.Keys == stored.Keys + cfg.servers
      ensures forall id :: id in nodes ==> nodes[id] == if id in stored then stored[id] else Node(Unknown, 0.0, 0, 0.0)
    {
      this.cfg := cfg;
      counters := map[];
      nodes := stored + map id | id in cfg.servers && id !in stored :: Node(Unknown, 0.0, 0, 0.0);
    }

    ghost function Contents(): Memory
      reads this
    {
      Memory(counters, nodes)
    }

    method RecordFailure(id: string) returns (failures: int)
      modifies this`counters
      ensures failures == Failures(old(Contents()), id) + 1
      ensures counters == old(counters)[id := failures]
    {
      failures := (if id in counters then counters[id] else 0) + 1;
      counters := counters[id := failures];
    }

    method PollNode(id: string, outcome: Outcome, now: Time)
      modifies this
      ensures Contents() == Poll(old(Contents()), id, outcome, now, cfg)
    {
      if id !in cfg.servers {
        return;
      }
      if id in counters && counters[id] >= cfg.threshold {
        return;
      }
      match outcome {
        case Healthy =>
          nodes := nodes[id := Node(Up, now, 0, 0.0)];
          counters := counters[id := 0];
        case HttpError =>
          var failures := RecordFailure(id);
          var status := if failures >= cfg.threshold then Down else Degraded;
          nodes := nodes[id := Node(status, now, failures, now + Backoff(failures, cfg))];
        case OtherError =>
      }
    }

    method NextRetryNodes(now: Time) returns (due: seq<string>)
      ensures forall i, j :: 0 <= i < j < |due| ==> due[i] != due[j]
      ensures forall id :: id in due <==> id in nodes && Due(nodes[id], now)
    {
      due := [];
      var rest := nodes.Keys;
      while rest != {}
        invariant rest <= nodes.Keys
        invariant forall i, j :: 0 <= i < j < |due| ==> due[i] != due[j]
        invariant forall id :: id in due <==> id in nodes && id !in rest && Due(nodes[id], now)
        decreases rest
      {
        var id :| id in rest;
        rest := rest - {id};
        if Due(nodes[id], now) {
          due := due + [id];
        }
      }
    }

    /** The nodes of one cycle: each chosen one once. */
    method SelectNodes(now: Time) returns (toPoll: seq<string>)
      ensures forall i, j :: 0 <= i < j < |toPoll| ==> toPoll[i] != toPoll[j]
      ensures forall id :: id in toPoll <==> Chosen(Contents(), id, now, cfg)
    {
      toPoll := NextRetryNodes(now);
      var rest := cfg.servers;
      while rest != {}
        invariant rest <= cfg.servers
        invariant forall i, j :: 0 <= i < j < |toPoll| ==> toPoll[i] != toPoll[j]
        invariant forall id :: id in toPoll <==>
          id in nodes && (Due(nodes[id], now) || (id !in rest && Chosen(Contents(), id, now, cfg)))
        decreases rest
      {
        var id :| id in rest;
        rest := rest - {id};
        if id in nodes && nodes[id].status == Up && now - nodes[id].lastCheck >= cfg.syncInterval {
          if id !in toPoll {
            toPoll := toPoll + [id];
          }
        }
      }
    }
  }

  // ---------------------------------------------------------------------------
  // Runs
  // ---------------------------------------------------------------------------

  /** A poll of one node: chosen at the start of a cycle, finished with an outcome. Nodes are polled in parallel. */
  datatype Event = Event(id: string, chosen: Time, finished: Time, outcome: Outcome)

  function After(m: Memory, run: Run<Event>, cfg: Config): Memory {
    match run
    case Start => m
    case Then(before, e) => Poll(After(m, before, cfg), e.id, e.outcome, e.finished, cfg)
  }

  /** Every poll of id in the run had finished by t. */
  ghost predicate DoneBy(run: Run<Event>, id: string, t: Time) {
    match run
    case Start => true
    case Then(before, e) => DoneBy(before, id, t) && (e.id == id ==> e.finished <= t)
  }

  /** Nodes are polled when chosen, and a cycle waits for all its polls, so polls of one node do not overlap. */
  ghost predicate Legal(m: Memory, run: Run<Event>, cfg: Config) {
    match run
    case Start => true
    case Then(before, e) =>
      && Legal(m, before, cfg)
      && DoneBy(before, e.id, e.chosen)
      && e.chosen <= e.finished
      && Chosen(After(m, before, cfg), e.id, e.chosen, cfg)
  }

  /** The stored state of a polled node in terms of its counter. */
  ghost predicate Consistent(m: Memory, id: string, cfg: Config) {
    id in m.counters ==>
      && id in m.nodes
      && var f, node := m.counters[id], m.nodes[id];
         && 0 <= f <= cfg.threshold
         && node.consecutiveFailures == f
         && (node.status == Up <==> f == 0)
         && (node.status == Degraded <==> 0 < f < cfg.threshold)
         && (node.status == Down <==> f == cfg.threshold)
         && node.nextRetryAt == if f == 0 then 0.0 else node.lastCheck + Backoff(f, cfg)
  }

  /** From process start, whatever states were stored, the stored state of every polled node follows its counter. */
  lemma {:induction false} ConsistentAlways(nodes: map<string, Node>, run: Run<Event>, cfg: Config, id: string)
    requires cfg.threshold >= 1
    ensures Consistent(After(Memory(map[], nodes), run, cfg), id, cfg)
  {
    match run
    case Start =>
    case Then(before, e) => ConsistentAlways(nodes, before, cfg, id);
  }

  /** After the f-th consecutive failure the next poll is not chosen before the backoff for f has passed. */
  lemma {:induction false} BackoffRespected(nodes: map<string, Node>, run: Run<Event>, cfg: Config, e: Event)
    requires cfg.threshold >= 1 && Legal(Memory(map[], nodes), Then(run, e), cfg)
    requires Failures(After(Memory(map[], nodes), run, cfg), e.id) > 0
    ensures var m := After(Memory(map[], nodes), run, cfg);
            e.chosen >= m.nodes[e.id].lastCheck + Backoff(m.counters[e.id], cfg)
  {
    ConsistentAlways(nodes, run, cfg, e.id);
  }

  /** When the last poll of id that counted as a failure finished. */
  function LastFailure(m: Memory, run: Run<Event>, cfg: Config, id: string): Time {
    match run
    case Start => 0.0
    case Then(before, e) =>
      if e.id == id && Counts(After(m, before, cfg), e, cfg) && e.outcome == HttpError then e.finished
      else LastFailure(m, before, cfg, id)
  }

  /** When the first failure of the present streak of failures of id finished. */
  function StreakStart(m: Memory, run: Run<Event>, cfg: Config, id: string): Time {
    match run
    case Start => 0.0
    case Then(before, e) =>
      if e.id == id && Counts(After(m, before, cfg), e, cfg) && e.outcome == HttpError
         && Failures(After(m, before, cfg), id) == 0
      then e.finished
      else StreakStart(m, before, cfg, id)
  }

  /** The poll is really made: the node is configured and its circuit is not open. */
  predicate Counts(m: Memory, e: Event, cfg: Config) {
    e.id in cfg.servers && !Open(m, e.id, cfg)
  }

  /** The sum of the backoffs after failures 1 to f. */
  function TotalBackoff(f: nat, cfg: Config): Time {
    if f == 0 then 0.0 else TotalBackoff(f - 1, cfg) + Backoff(f, cfg)
  }

  /** f failures in a row take at least the sum of the first f - 1 backoffs. */
  lemma {:induction false} StreakTakesTime(nodes: map<string, Node>, run: Run<Event>, cfg: Config, id: string)
    requires cfg.threshold >= 1 && Legal(Memory(map[], nodes), run, cfg)
    ensures var start := Memory(map[], nodes);
            var f := Failures(After(start, run, cfg), id);
            f > 0 ==>
              && id in After(start, run, cfg).nodes
              && After(start, run, cfg).nodes[id].lastCheck == LastFailure(start, run, cfg, id)
              && LastFailure(start, run, cfg, id) - StreakStart(start, run, cfg, id) >= TotalBackoff(f - 1, cfg)
  {
    match run
    case Start =>
    case Then(before, e) =>
      StreakTakesTime(nodes, before, cfg, id);
      ConsistentAlways(nodes, before, cfg, id);
      if e.id == id && Failures(After(Memory(map[], nodes), before, cfg), id) > 0 {
        BackoffRespected(nodes, before, cfg, e);
      }
  }

  /** A node goes down no sooner than the backoffs of its first threshold - 1 failures after the first of them. */
  lemma DownTakesAllBackoffs(nodes: map<string, Node>, run: Run<Event>, cfg: Config, id: string)
    requires cfg.threshold >= 1 && Legal(Memory(map[], nodes), run, cfg)
    requires var m := After(Memory(map[], nodes), run, cfg); id in m.counters && StatusOf(m, id) == Down
    ensures var start := Memory(map[], nodes);
            LastFailure(start, run, cfg, id) - StreakStart(start, run, cfg, id) >= TotalBackoff(cfg.threshold - 1, cfg)
  {
    ConsistentAlways(nodes, run, cfg, id);
    StreakTakesTime(nodes, run, cfg, id);
  }

  /** Down is final within a process: no later poll is made and the stored state stays, long after the backoff. */
  lemma {:induction false} DownIsAbsorbing(m: Memory, run: Run<Event>, cfg: Config, id: string)
    requires Open(m, id, cfg) && id in m.nodes
    ensures var u := After(m, run, cfg);
            && Open(u, id, cfg) && u.counters[id] == m.counters[id]
            && id in u.nodes && u.nodes[id] == m.nodes[id]
  {
    match run
    case Start =>
    case Then(before, e) => DownIsAbsorbing(m, before, cfg, id);
  }

  /** A configured node that is not down is really polled whenever it is chosen, and one healthy answer brings it up. */
  lemma {:induction false} HealthyPollRecovers(
      nodes: map<string, Node>, run: Run<Event>, cfg: Config, id: string, now: Time)
    requires cfg.threshold >= 1 && id in cfg.servers
    ensures var m := After(Memory(map[], nodes), run, cfg);
            var u := Poll(m, id, Healthy, now, cfg);
            (id in u.nodes && u.nodes[id] == Node(Up, now, 0, 0.0) && Failures(u, id) == 0)
            <==> (id in m.counters ==> StatusOf(m, id) != Down)
  {
    ConsistentAlways(nodes, run, cfg, id);
  }

  /** A node that is up is due in every cycle: its retry time is zero, so the sync interval never decides. */
  lemma UpIsAlwaysDue(nodes: map<string, Node>, run: Run<Event>, cfg: Config, id: string, now: Time)
    requires cfg.threshold >= 1 && now >= 0.0
    requires var m := After(Memory(map[], nodes), run, cfg); id in m.counters && m.counters[id] == 0
    ensures var m := After(Memory(map[], nodes), run, cfg);
            id in m.nodes && Due(m.nodes[id], now)
  {
    ConsistentAlways(nodes, run, cfg, id);
  }

  // ---------------------------------------------------------------------------
  // An outage
  // ---------------------------------------------------------------------------

  /** When the n-th of a row of polls is made, each as soon as every backoff is over. */
  function PollTime(n: nat, cfg: Config): Time {
    if n == 0 then 0.0 else PollTime(n - 1, cfg) + (if cfg.backoffMax > 0.0 then cfg.backoffMax else 0.0)
  }

  /** n polls of a node in a row that all fail. */
  function Outage(id: string, n: nat, cfg: Config): Run<Event> {
    if n == 0 then Start
    else Then(Outage(id, n - 1, cfg), Event(id, PollTime(n, cfg), PollTime(n, cfg), HttpError))
  }

  /** Every configuration has a legal run that counts n failures of a node it has just learnt of. */
  lemma {:induction false} OutageCounts(id: string, n: nat, cfg: Config)
    requires id in cfg.servers && n <= cfg.threshold
    ensures var start := Memory(map[], map[id := Node(Unknown, 0.0, 0, 0.0)]);
            var m := After(start, Outage(id, n, cfg), cfg);
            && Legal(start, Outage(id, n, cfg), cfg) && DoneBy(Outage(id, n, cfg), id, PollTime(n, cfg))
            && Failures(m, id) == n && id in m.nodes
            && (n == 0 ==> m == start)
            && (n > 0 ==> id in m.counters && m.nodes[id] == AfterFailure(n, PollTime(n, cfg), cfg))
  {
    if n > 0 {
      OutageCounts(id, n - 1, cfg);
      LaterPollsToo(Outage(id, n - 1, cfg), id, PollTime(n - 1, cfg), PollTime(n, cfg));
    }
  }

  lemma {:induction false} LaterPollsToo(run: Run<Event>, id: string, t: Time, later: Time)
    requires DoneBy(run, id, t) && t <= later
    ensures DoneBy(run, id, later)
  {
    match run
    case Start =>
    case Then(before, e) => LaterPollsToo(before, id, t, later);
  }

  /** So every configured node can go down, and then it is never polled again. */
  lemma OutageBringsDown(id: string, cfg: Config)
    requires id in cfg.servers && cfg.threshold >= 1
    ensures var start := Memory(map[], map[id := Node(Unknown, 0.0, 0, 0.0)]);
            var m := After(start, Outage(id, cfg.threshold, cfg), cfg);
            Legal(start, Outage(id, cfg.threshold, cfg), cfg) && StatusOf(m, id) == Down && Open(m, id, cfg)
  {
    OutageCounts(id, cfg.threshold, cfg);
  }

  // ---------------------------------------------------------------------------
  // Backoffs and choices in closed form
  // ---------------------------------------------------------------------------

  /** The backoff is the smaller of the power of two and the maximum; the power doubles with each failure. */
  lemma BackoffIsCappedPower(f: nat, cfg: Config)
    ensures Pow2(0) == 1 && Pow2(f + 1) == 2 * Pow2(f)
    ensures Backoff(f, cfg) <= Pow2(f) as real && Backoff(f, cfg) <= cfg.backoffMax
    ensures Backoff(f, cfg) == Pow2(f) as real || Backoff(f, cfg) == cfg.backoffMax
  {
  }

  lemma {:induction false} PowersGrow(f: nat, g: nat)
    requires f <= g
    ensures 1 <= Pow2(f) <= Pow2(g)
  {
    if f < g {
      PowersGrow(f, g - 1);
    } else if f > 0 {
      PowersGrow(f - 1, f - 1);
    }
  }

  /** As long as the maximum is not reached, f failures in a row take 2^(f+1) - 2 seconds of backoff. */
  lemma {:induction false} TotalBackoffClosed(f: nat, cfg: Config)
    requires Pow2(f) as real <= cfg.backoffMax
    ensures TotalBackoff(f, cfg) == (Pow2(f + 1) - 2) as real
  {
    if f > 0 {
      PowersGrow(f - 1, f);
      TotalBackoffClosed(f - 1, cfg);
    }
  }

  /** A node is polled in a cycle if it is new, its retry time has come, or it is up and its interval is over. */
  lemma ChosenWhenDue(m: Memory, id: string, now: Time, cfg: Config)
    requires id in m.nodes
    ensures m.nodes[id].status == Unknown ==> Chosen(m, id, now, cfg)
    ensures m.nodes[id].nextRetryAt <= now ==> Chosen(m, id, now, cfg)
    ensures m.nodes[id].status == Up && id in cfg.servers && m.nodes[id].lastCheck + cfg.syncInterval <= now
        ==> Chosen(m, id, now, cfg)
    ensures Chosen(m, id, now, cfg) && m.nodes[id].nextRetryAt > now
        ==> m.nodes[id].status == Unknown
            || (m.nodes[id].status == Up && id in cfg.servers && m.nodes[id].lastCheck + cfg.syncInterval <= now)
  {
  }

  /** The run without the polls that ended in some other exception. */
  function Heard(run: Run<Event>): Run<Event> {
    match run
    case Start => Start
    case Then(before, e) => if e.outcome == OtherError then Heard(before) else Then(Heard(before), e)
  }

  /** Such polls leave no trace, neither in the counters nor in the stored states. */
  lemma {:induction false} OtherErrorsLeaveNoTrace(m: Memory, run: Run<Event>, cfg: Config)
    ensures After(m, run, cfg) == After(m, Heard(run), cfg)
  {
    match run
    case Start =>
    case Then(before, e) => OtherErrorsLeaveNoTrace(m, before, cfg);
  }

  /** A poll changes the counter and the state of its own node only. */
  lemma PollTouchesOnlyItsNode(m: Memory, id: string, outcome: Outcome, now: Time, cfg: Config, other: string)
    requires other != id
    ensures var u := Poll(m, id, outcome, now, cfg);
            && (other in u.counters <==> other in m.counters)
            && (other in m.counters ==> u.counters[other] == m.counters[other])
            && (other in u.nodes <==> other in m.nodes) && (other in m.nodes ==> u.nodes[other] == m.nodes[other])
  {
  }
}
