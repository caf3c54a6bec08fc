/**
 * The part of FRR that the daemon drives through vtysh: prefix-lists, route-maps, inbound and
 * outbound neighbour bindings, a command interpreter, and the evaluation of a route.
 *
 * Where FRR releases differ, or their documentation leaves room, the difference is a `Dialect`;
 * what is proved about scripts holds for every dialect.
 */
module Router {
  import opened Options

  const MAX_SEQ: nat := 65535

  /** One route-map sequence: its action, its prefix-list match and its local-preference action. */
  datatype Clause = Clause(permit: bool, guard: Option<string>, pref: Option<int>)

  type Clauses = map<nat, Clause>

  datatype Config = Config(
    lists: map<string, map<nat, string>>,  // prefix-list -> sequence -> exact prefix permitted
    maps: map<string, Clauses>,
    inbound: map<string, string>,          // neighbour -> route-map
    outbound: map<string, string>)
  {
    /** Whether some session still applies the route-map. */
    ghost predicate Bound(name: string) {
      (exists nb :: nb in inbound && inbound[nb] == name) || (exists nb :: nb in outbound && outbound[nb] == name)
    }

    /** Whether some route-map still matches on the prefix-list. */
    ghost predicate Referenced(list: string) {
      exists name, q :: name in maps && q in maps[name] && maps[name][q].guard == Some(list)
    }

    function ClausesOf(name: string): Clauses {
      if name in maps then maps[name] else map[]
    }

    function EntriesOf(list: string): map<nat, string> {
      if list in lists then lists[list] else map[]
    }
  }

  /**
   * redeclareClears: re-entering a sequence drops its match and set; otherwise both survive until
   * overwritten. detachChecksName: `no neighbor .. route-map NAME in` is void when another map is bound.
   */
  datatype Dialect = Dialect(redeclareClears: bool, detachChecksName: bool)

  datatype Mode = Enable | Top | InMap(name: string, seqNo: nat) | InBgp

  datatype Session = Session(config: Config, mode: Mode)

  datatype Command =
    | Configure                                              // configure terminal
    | Exit                                                   // exit
    | DeclareList(list: string, seqNo: nat, prefix: string)  // ip prefix-list L seq N permit P
    | EnterMap(name: string, seqNo: nat)                     // route-map M permit N
    | MatchList(list: string)                                // match ip address prefix-list L
    | SetPref(pref: int)                                     // set local-preference V
    | RouterBgp                                              // router bgp
    | Bind(neighbor: string, name: string)                   // neighbor X route-map M in
    | Unbind(neighbor: string, name: string)                 // no neighbor X route-map M in
    | DeleteMap(name: string)                                // no route-map M
    | DeleteList(list: string)                               // no ip prefix-list L

  predicate LegalPref(v: int) {
    0 <= v < 0x1_0000_0000
  }

  function Entered(d: Dialect, old': Clauses, q: nat): Clause {
    if q in old' && !d.redeclareClears then old'[q].(permit := true) else Clause(true, None, None)
  }

  function Detached(d: Dialect, inbound: map<string, string>, nb: string, name: string): map<string, string> {
    if nb in inbound && d.detachChecksName && inbound[nb] != name then inbound else inbound - {nb}
  }

  /** One command. None: FRR rejects it, in which case vtysh stops. */
  function Step(d: Dialect, s: Session, c: Command): Option<Session> {
    var cfg := s.config;
    match c
    case Configure =>
      if s.mode.Enable? then Some(s.(mode := Top)) else None
    case Exit =>
      (match s.mode
       case Enable => None
       case Top => Some(s.(mode := Enable))
       case _ => Some(s.(mode := Top)))
    case DeclareList(list, q, prefix) =>
      if s.mode.Top? then Some(s.(config := cfg.(lists := cfg.lists[list := cfg.EntriesOf(list)[q := prefix]]))) else None
    case EnterMap(name, q) =>
      if s.mode.Top? && 1 <= q <= MAX_SEQ then
        var clauses := cfg.ClausesOf(name);
        Some(Session(cfg.(maps := cfg.maps[name := clauses[q := Entered(d, clauses, q)]]), InMap(name, q)))
      else None
    case MatchList(list) =>
      if InClause(s) then Some(Amended(s, CurrentClause(s).(guard := Some(list)))) else None
    case SetPref(v) =>
      if InClause(s) && LegalPref(v) then Some(Amended(s, CurrentClause(s).(pref := Some(v)))) else None
    case RouterBgp =>
      if s.mode.Top? then Some(s.(mode := InBgp)) else None
    case Bind(nb, name) =>
      if s.mode.InBgp? then Some(s.(config := cfg.(inbound := cfg.inbound[nb := name]))) else None
    case Unbind(nb, name) =>
      if s.mode.InBgp? then Some(s.(config := cfg.(inbound := Detached(d, cfg.inbound, nb, name)))) else None
    case DeleteMap(name) =>
      if s.mode.Top? then Some(s.(config := cfg.(maps := cfg.maps - {name}))) else None
    case DeleteList(list) =>
      if s.mode.Top? then Some(s.(config := cfg.(lists := cfg.lists - {list}))) else None
  }

  predicate InClause(s: Session) {
    s.mode.InMap? && s.mode.name in s.config.maps && s.mode.seqNo in s.config.maps[s.mode.name]
  }

  function CurrentClause(s: Session): Clause
    requires InClause(s)
  {
    s.config.maps[s.mode.name][s.mode.seqNo]
  }

  function Amended(s: Session, clause: Clause): Session
    requires InClause(s)
  {
    var clauses := s.config.maps[s.mode.name];
    s.(config := s.config.(maps := s.config.maps[s.mode.name := clauses[s.mode.seqNo := clause]]))
  }

  // ---------- scripts

  datatype Outcome = Outcome(session: Session, ok: bool)

  /** Runs a script up to its end or to the first rejected command. */
  function Run(d: Dialect, s: Session, script: seq<Command>): Outcome
    decreases |script|
  {
    if script == [] then Outcome(s, true) else
      match Step(d, s, script[0])
      case None => Outcome(s, false)
      case Some(t) => Run(d, t, script[1..])
  }

  lemma RunCons(d: Dialect, s: Session, c: Command, rest: seq<Command>)
    ensures Run(d, s, [c] + rest) == match Step(d, s, c)
                                     case None => Outcome(s, false)
                                     case Some(t) => Run(d, t, rest)
  {
    assert ([c] + rest)[1..] == rest;
  }

  lemma {:induction false} RunAppend(d: Dialect, s: Session, a: seq<Command>, b: seq<Command>)
    ensures var r := Run(d, s, a);
            Run(d, s, a + b) == if r.ok then Run(d, r.session, b) else r
    decreases |a|
  {
    if a == [] {
      assert a + b == b;
    } else {
      assert (a + b)[1..] == a[1..] + b;
      match Step(d, s, a[0])
      case None =>
      case Some(t) => RunAppend(d, t, a[1..], b);
    }
  }

  /**
   * One vtysh session. It dies after `fault` commands (a broken pipe, a lost daemon) unless the
   * script is shorter; the caller then sees an error, as it does for a rejected command.
   */
  function Vtysh(d: Dialect, config: Config, script: seq<Command>, fault: nat): (r: (Config, bool)) {
    var whole := fault >= |script|;
    var r := Run(d, Session(config, Enable), if whole then script else script[..fault]);
    (r.session.config, whole && r.ok)
  }

  // ---------- what a route experiences

  datatype Verdict = Denied | Accepted(pref: int)

  predicate Guards(lists: map<string, map<nat, string>>, clause: Clause, prefix: string) {
    match clause.guard
    case None => true
    case Some(list) => list in lists && exists q | q in lists[list] :: lists[list][q] == prefix
  }

  /** First matching sequence from `q` upward; a route that matches none is denied. */
  function Evaluate(lists: map<string, map<nat, string>>, clauses: Clauses, q: nat, prefix: string, pref: int): Verdict
    decreases MAX_SEQ + 1 - q
  {
    if q > MAX_SEQ then Denied
    else if q in clauses && Guards(lists, clauses[q], prefix) then
      if clauses[q].permit then Accepted(clauses[q].pref.GetOr(pref)) else Denied
    else Evaluate(lists, clauses, q + 1, prefix, pref)
  }

  /** The inbound policy for a neighbour; a binding to an undefined route-map denies. */
  function Receive(config: Config, neighbor: string, prefix: string, pref: int): Verdict {
    if neighbor !in config.inbound then Accepted(pref)
    else if config.inbound[neighbor] !in config.maps then Denied
    else Evaluate(config.lists, config.maps[config.inbound[neighbor]], 1, prefix, pref)
  }

  lemma {:induction false} EvaluateSkips(
      lists: map<string, map<nat, string>>, clauses: Clauses, q: nat, r: nat, prefix: string, pref: int)
    requires q <= r <= MAX_SEQ + 1
    requires forall i | q <= i < r :: i in clauses ==> !Guards(lists, clauses[i], prefix)
    ensures Evaluate(lists, clauses, q, prefix, pref) == Evaluate(lists, clauses, r, prefix, pref)
    decreases r - q
  {
    if q == r {
    } else {
      EvaluateSkips(lists, clauses, q + 1, r, prefix, pref);
    }
  }

  /** All clauses permit and the last one is unconditional: nothing is ever denied. */
  lemma {:induction false} PermitAllNeverDenies(
      lists: map<string, map<nat, string>>, clauses: Clauses, q: nat, prefix: string, pref: int)
    requires q <= MAX_SEQ && MAX_SEQ in clauses && clauses[MAX_SEQ].guard == None
    requires forall i | i in clauses :: clauses[i].permit
    ensures Evaluate(lists, clauses, q, prefix, pref).Accepted?
    decreases MAX_SEQ - q
  {
    if q in clauses && Guards(lists, clauses[q], prefix) {
    } else {
      PermitAllNeverDenies(lists, clauses, q + 1, prefix, pref);
    }
  }

  // ---------- hazards

  /** Freeing something that is still in use: a bound route-map or a referenced prefix-list. */
  ghost predicate Hazard(s: Session, c: Command) {
    match c
    case DeleteMap(name) => s.config.Bound(name)
    case DeleteList(list) => s.config.Referenced(list)
    case _ => false
  }

  /** No command that the script gets to execute is a hazard. */
  ghost predicate HazardFree(d: Dialect, s: Session, script: seq<Command>)
    decreases |script|
  {
    script == [] ||
    (!Hazard(s, script[0]) &&
     match Step(d, s, script[0])
     case None => true
     case Some(t) => HazardFree(d, t, script[1..]))
  }

  lemma {:induction false} HazardFreeAppend(d: Dialect, s: Session, a: seq<Command>, b: seq<Command>)
    ensures HazardFree(d, s, a + b)
       <==> HazardFree(d, s, a) && (Run(d, s, a).ok ==> HazardFree(d, Run(d, s, a).session, b))
    decreases |a|
  {
    if a == [] {
      assert a + b == b;
    } else {
      assert (a + b)[1..] == a[1..] + b;
      match Step(d, s, a[0])
      case None =>
      case Some(t) => HazardFreeAppend(d, t, a[1..], b);
    }
  }
}
