/** The EasyUI module loader: several `load` calls walk their own queues of modules while
    sharing one table of what has been requested and what has arrived. Between two steps the
    browser may run any other step, and user callbacks may call `load` again. */
module EasyLoader {

  /** The dependencies of each known module. */
  type Modules = map<string, seq<string>>

  /** The module table has no cycles: every known dependency ranks lower. */
  ghost predicate Acyclic(modules: Modules, rank: string -> nat) {
    forall m, d :: m in modules && d in modules[m] && d in modules ==> rank(d) < rank(m)
  }

  datatype Status = Loading | Loaded

  /** Where a `load` call stands: its script has been requested, has arrived, another call's
      script is being waited for, or nothing more will happen. */
  datatype Phase = Fetching | Arrived | Sleeping | GaveUp | FetchingLocale | Completed

  datatype Call = Call(requested: seq<string>, queue: seq<string>, elapsed: nat, fetched: bool, phase: Phase)

  /** A script request and a completion, with the table at that moment. */
  datatype Request = Request(script: string, table: map<string, Status>)

  datatype Completion = Completion(call: nat, table: map<string, Status>)

  datatype Loader = Loader(table: map<string, Status>, calls: seq<Call>, requests: seq<Request>, completions: seq<Completion>)

  // ---------------------------------------------------------------- the order of a queue

  /** `add`: the dependencies of a module, depth first, then the module; repetitions stay. */
  ghost function Order(modules: Modules, rank: string -> nat, m: string): seq<string>
    requires Acyclic(modules, rank)
    decreases rank(m), 1
  {
    if m !in modules then [] else DependencyOrder(modules, rank, m, |modules[m]|) + [m]
  }

  /** The order of the first `n` dependencies of `m`. */
  ghost function DependencyOrder(modules: Modules, rank: string -> nat, m: string, n: nat): seq<string>
    requires Acyclic(modules, rank) && m in modules && n <= |modules[m]|
    decreases rank(m), 0, n
  {
    if n == 0 then [] else
      var d := modules[m][n - 1];
      DependencyOrder(modules, rank, m, n - 1) + if d in modules then Order(modules, rank, d) else []
  }

  ghost function OrderAll(modules: Modules, rank: string -> nat, names: seq<string>): seq<string>
    requires Acyclic(modules, rank)
  {
    if names == [] then [] else OrderAll(modules, rank, names[..|names| - 1]) + Order(modules, rank, names[|names| - 1])
  }

  /** What is asked for first comes first. */
  lemma {:induction false} OrderAllOf(modules: Modules, rank: string -> nat, a: seq<string>, b: seq<string>)
    requires Acyclic(modules, rank)
    ensures OrderAll(modules, rank, a + b) == OrderAll(modules, rank, a) + OrderAll(modules, rank, b)
  {
    if b == [] {
      assert a + b == a;
    } else {
      var last := |b| - 1;
      assert (a + b)[..|a + b| - 1] == a + b[..last] && (a + b)[|a + b| - 1] == b[last];
      OrderAllOf(modules, rank, a, b[..last]);
    }
  }

  /** A known module comes behind what it depends on, in the order in which that is listed; an unknown one is
      passed over. */
  lemma OrderOfOne(modules: Modules, rank: string -> nat, m: string)
    requires Acyclic(modules, rank)
    ensures OrderAll(modules, rank, [m]) == if m in modules then OrderAll(modules, rank, modules[m]) + [m] else []
  {
    assert [m][..0] == [] && OrderAll(modules, rank, []) == [];
    if m in modules {
      FirstDependencies(modules, rank, m, |modules[m]|);
      assert modules[m][..|modules[m]|] == modules[m];
    }
  }

  lemma {:induction false} FirstDependencies(modules: Modules, rank: string -> nat, m: string, n: nat)
    requires Acyclic(modules, rank) && m in modules && n <= |modules[m]|
    ensures DependencyOrder(modules, rank, m, n) == OrderAll(modules, rank, modules[m][..n])
  {
    if n > 0 {
      FirstDependencies(modules, rank, m, n - 1);
      assert modules[m][..n][..n - 1] == modules[m][..n - 1];
    }
  }

  /** Every known dependency of an entry stands before it. */
  ghost predicate Ordered(modules: Modules, q: seq<string>) {
    forall i, d :: 0 <= i < |q| && q[i] in modules && d in modules[q[i]] && d in modules ==> d in q[..i]
  }

  lemma OrderedConcat(modules: Modules, p: seq<string>, q: seq<string>)
    requires Ordered(modules, p) && Ordered(modules, q)
    ensures Ordered(modules, p + q)
  {
    forall i, d | 0 <= i < |p + q| && (p + q)[i] in modules && d in modules[(p + q)[i]] && d in modules ensures d in (p + q)[..i] {
      if i < |p| {
        assert (p + q)[..i] == p[..i];
      } else {
        assert (p + q)[..i] == p + q[..i - |p|];
        assert d in q[..i - |p|];
      }
    }
  }

  lemma {:induction false} OrderIsOrdered(modules: Modules, rank: string -> nat, m: string)
    requires Acyclic(modules, rank)
    ensures Ordered(modules, Order(modules, rank, m)) && (m in modules ==> m in Order(modules, rank, m))
    decreases rank(m), 1
  {
    if m in modules {
      var n := |modules[m]|;
      var p := DependencyOrder(modules, rank, m, n);
      DependencyOrderIsOrdered(modules, rank, m, n);
      forall i, d | 0 <= i < |p + [m]| && (p + [m])[i] in modules && d in modules[(p + [m])[i]] && d in modules ensures d in (p + [m])[..i] {
        if i < |p| {
          assert (p + [m])[..i] == p[..i];
        } else {
          assert (p + [m])[..i] == p;
          var k :| 0 <= k < n && modules[m][k] == d;
        }
      }
    }
  }

  lemma {:induction false} DependencyOrderIsOrdered(modules: Modules, rank: string -> nat, m: string, n: nat)
    requires Acyclic(modules, rank) && m in modules && n <= |modules[m]|
    ensures Ordered(modules, DependencyOrder(modules, rank, m, n))
    ensures forall k :: 0 <= k < n && modules[m][k] in modules ==> modules[m][k] in DependencyOrder(modules, rank, m, n)
    decreases rank(m), 0, n
  {
    if n > 0 {
      DependencyOrderIsOrdered(modules, rank, m, n - 1);
      var d := modules[m][n - 1];
      if d in modules {
        OrderIsOrdered(modules, rank, d);
        OrderedConcat(modules, DependencyOrder(modules, rank, m, n - 1), Order(modules, rank, d));
      } else {
        assert DependencyOrder(modules, rank, m, n) == DependencyOrder(modules, rank, m, n - 1);
      }
    }
  }

  lemma {:induction false} OrderAllIsOrdered(modules: Modules, rank: string -> nat, names: seq<string>)
    requires Acyclic(modules, rank)
    ensures Ordered(modules, OrderAll(modules, rank, names))
    ensures forall m :: m in names && m in modules ==> m in OrderAll(modules, rank, names)
  {
    if names != [] {
      OrderAllIsOrdered(modules, rank, names[..|names| - 1]);
      OrderIsOrdered(modules, rank, names[|names| - 1]);
      OrderedConcat(modules, OrderAll(modules, rank, names[..|names| - 1]), Order(modules, rank, names[|names| - 1]));
      forall m | m in names && m in modules ensures m in OrderAll(modules, rank, names) {
        if m !in names[..|names| - 1] { assert m == names[|names| - 1]; }
      }
    }
  }

  // ---------------------------------------------------------------- one step

  /** The options read while loading, and the tables. */
  datatype Config = Config(modules: Modules, timeout: nat, locale: bool)

  /** `_1e` for call `c`: skip what is loaded, then request, wait, give up or finish. */
  function Advance(cfg: Config, s: Loader, c: nat): Loader
    requires c < |s.calls|
    decreases |s.calls[c].queue|
  {
    var call := s.calls[c];
    if call.queue == [] then
      if cfg.locale && call.fetched then s.(calls := s.calls[c := call.(phase := FetchingLocale)])
      else Complete(s, c)
    else
      var m := call.queue[0];
      if m !in s.table then
        s.(table := s.table[m := Loading], calls := s.calls[c := call.(fetched := true, phase := Fetching)],
           requests := s.requests + [Request(m, s.table)])
      else if s.table[m] == Loaded then Advance(cfg, s.(calls := s.calls[c := call.(queue := call.queue[1..])]), c)
      else if call.elapsed < cfg.timeout then s.(calls := s.calls[c := call.(elapsed := call.elapsed + 10, phase := Sleeping)])
      else s.(calls := s.calls[c := call.(phase := GaveUp)])
  }

  function Complete(s: Loader, c: nat): Loader
    requires c < |s.calls|
  {
    s.(calls := s.calls[c := s.calls[c].(phase := Completed)], completions := s.completions + [Completion(c, s.table)])
  }

  /** What may happen next: a `load`, the arrival of a call's script, that call going on after
      the progress callback, a timer, or the arrival of the locale script. */
  datatype Event = Load(names: seq<string>) | Arrives(call: nat) | GoesOn(call: nat) | Wakes(call: nat) | LocaleArrives(call: nat)

  ghost function Step(cfg: Config, rank: string -> nat, s: Loader, e: Event): Loader
    requires Acyclic(cfg.modules, rank)
  {
    match e
    case Load(names) =>
      Advance(cfg, s.(calls := s.calls + [Call(names, OrderAll(cfg.modules, rank, names), 0, false, Sleeping)]), |s.calls|)
    case Arrives(c) =>
      if c < |s.calls| && s.calls[c].phase == Fetching && s.calls[c].queue != []
      then s.(table := s.table[s.calls[c].queue[0] := Loaded], calls := s.calls[c := s.calls[c].(phase := Arrived)])
      else s
    case GoesOn(c) =>
      if c < |s.calls| && s.calls[c].phase == Arrived && s.calls[c].queue != []
      then Advance(cfg, s.(calls := s.calls[c := s.calls[c].(queue := s.calls[c].queue[1..])]), c)
      else s
    case Wakes(c) =>
      if c < |s.calls| && s.calls[c].phase == Sleeping then Advance(cfg, s, c) else s
    case LocaleArrives(c) =>
      if c < |s.calls| && s.calls[c].phase == FetchingLocale then Complete(s, c) else s
  }

  ghost function Run(cfg: Config, rank: string -> nat, es: seq<Event>): Loader
    requires Acyclic(cfg.modules, rank)
  {
    if es == [] then Loader(map[], [], [], []) else Step(cfg, rank, Run(cfg, rank, es[..|es| - 1]), es[|es| - 1])
  }

  // ---------------------------------------------------------------- the invariant

  ghost predicate IsLoaded(table: map<string, Status>, m: string) {
    m in table && table[m] == Loaded
  }

  /** All known dependencies of `m` are loaded. */
  ghost predicate Supported(modules: Modules, table: map<string, Status>, m: string) {
    m in modules ==> forall d :: d in modules[m] && d in modules ==> IsLoaded(table, d)
  }

  /** The queue is what is left of the call's order; what came before is loaded. */
  ghost predicate InQueue(cfg: Config, rank: string -> nat, table: map<string, Status>, call: Call)
    requires Acyclic(cfg.modules, rank)
  {
    var q := OrderAll(cfg.modules, rank, call.requested);
    && |call.queue| <= |q| && call.queue == q[|q| - |call.queue|..]
    && (forall m :: m in q[..|q| - |call.queue|] ==> IsLoaded(table, m))
  }

  ghost predicate InOrder(cfg: Config, rank: string -> nat, table: map<string, Status>, call: Call)
    requires Acyclic(cfg.modules, rank)
  {
    && InQueue(cfg, rank, table, call)
    && (call.phase == Fetching ==> call.queue != [] && call.queue[0] in table)
    && (call.phase == Arrived ==> call.queue != [] && IsLoaded(table, call.queue[0]))
    && (call.phase == Sleeping ==> call.queue != [])
    && (call.phase == FetchingLocale || call.phase == Completed ==> call.queue == [])
  }

  ghost predicate Valid(cfg: Config, rank: string -> nat, s: Loader)
    requires Acyclic(cfg.modules, rank)
  {
    ValidBut(cfg, rank, s, |s.calls|)
  }

  /** Valid, except that call `skip` is in the middle of a step. */
  ghost predicate ValidBut(cfg: Config, rank: string -> nat, s: Loader, skip: nat)
    requires Acyclic(cfg.modules, rank)
  {
    && Sound(cfg.modules, s.table)
    && (forall c :: 0 <= c < |s.calls| && c != skip ==> InOrder(cfg, rank, s.table, s.calls[c]))
    && RequestsValid(cfg.modules, s) && CompletionsValid(cfg, s)
  }

  ghost predicate RequestsValid(modules: Modules, s: Loader) {
    && (forall i :: 0 <= i < |s.requests| ==> s.requests[i].script in s.table)
    && (forall i, j :: 0 <= i < j < |s.requests| ==> s.requests[i].script != s.requests[j].script)
    && (forall i :: 0 <= i < |s.requests| ==>
          Sound(modules, s.requests[i].table) && Supported(modules, s.requests[i].table, s.requests[i].script))
  }

  ghost predicate CompletionsValid(cfg: Config, s: Loader) {
    && (forall i :: 0 <= i < |s.completions| ==> Fulfilled(cfg, s, s.completions[i]))
    && (forall i, j :: 0 <= i < j < |s.completions| ==> s.completions[i].call != s.completions[j].call)
  }

  ghost predicate Sound(modules: Modules, table: map<string, Status>) {
    forall m :: m in table ==> Supported(modules, table, m)
  }

  /** Every known module the call asked for was loaded when it completed. */
  ghost predicate Fulfilled(cfg: Config, s: Loader, done: Completion) {
    && done.call < |s.calls| && s.calls[done.call].phase == Completed
    && Sound(cfg.modules, done.table)
    && forall m :: m in s.calls[done.call].requested && m in cfg.modules ==> IsLoaded(done.table, m)
  }

  // ---------------------------------------------------------------- every step keeps it

  /** The table only grows, and what is loaded stays loaded. */
  ghost predicate Grows(t: map<string, Status>, u: map<string, Status>) {
    (forall m :: m in t ==> m in u) && (forall m :: IsLoaded(t, m) ==> IsLoaded(u, m))
  }

  lemma GrowsKeeps(cfg: Config, rank: string -> nat, t: map<string, Status>, u: map<string, Status>, call: Call)
    requires Acyclic(cfg.modules, rank) && Grows(t, u) && InOrder(cfg, rank, t, call)
    ensures InOrder(cfg, rank, u, call)
  {}

  /** The head of the queue may be requested: its dependencies stand before it. */
  lemma HeadSupported(cfg: Config, rank: string -> nat, table: map<string, Status>, call: Call)
    requires Acyclic(cfg.modules, rank) && InQueue(cfg, rank, table, call) && call.queue != []
    ensures Supported(cfg.modules, table, call.queue[0])
  {
    OrderAllIsOrdered(cfg.modules, rank, call.requested);
    var q := OrderAll(cfg.modules, rank, call.requested);
    var i := |q| - |call.queue|;
    assert q[i] == call.queue[0];
  }

  lemma TailInQueue(cfg: Config, rank: string -> nat, table: map<string, Status>, call: Call)
    requires Acyclic(cfg.modules, rank) && InQueue(cfg, rank, table, call) && call.queue != [] && IsLoaded(table, call.queue[0])
    ensures InQueue(cfg, rank, table, call.(queue := call.queue[1..]))
  {
    var q := OrderAll(cfg.modules, rank, call.requested);
    var i := |q| - |call.queue|;
    assert q[..i + 1] == q[..i] + [call.queue[0]] && q[i + 1..] == call.queue[1..];
  }

  lemma {:induction false} AdvanceKeeps(cfg: Config, rank: string -> nat, s: Loader, c: nat)
    requires Acyclic(cfg.modules, rank) && c < |s.calls| && ValidBut(cfg, rank, s, c) && InQueue(cfg, rank, s.table, s.calls[c])
    requires s.calls[c].phase != Completed
    ensures Valid(cfg, rank, Advance(cfg, s, c)) && Grows(s.table, Advance(cfg, s, c).table)
    decreases |s.calls[c].queue|
  {
    hide ValidBut, RequestsValid, CompletionsValid, Sound, Supported, Fulfilled;
    var call := s.calls[c];
    if call.queue == [] {
      if cfg.locale && call.fetched { PhaseKeeps(cfg, rank, s, c, call.(phase := FetchingLocale)); } else { CompleteKeeps(cfg, rank, s, c); }
    } else if call.queue[0] !in s.table {
      RequestKeeps(cfg, rank, s, c);
    } else if s.table[call.queue[0]] == Loaded {
      var skipped := call.(queue := call.queue[1..]);
      TailInQueue(cfg, rank, s.table, call);
      SkipKeeps(cfg, rank, s, c, skipped);
      hide Valid, ValidBut, InQueue;
      AdvanceKeeps(cfg, rank, s.(calls := s.calls[c := skipped]), c);
    } else if call.elapsed < cfg.timeout {
      PhaseKeeps(cfg, rank, s, c, call.(elapsed := call.elapsed + 10, phase := Sleeping));
    } else {
      PhaseKeeps(cfg, rank, s, c, call.(phase := GaveUp));
    }
  }

  /** Changing a call that has not completed leaves the rest valid. */
  lemma SkipKeeps(cfg: Config, rank: string -> nat, s: Loader, c: nat, call: Call)
    requires Acyclic(cfg.modules, rank) && c < |s.calls| && ValidBut(cfg, rank, s, c) && s.calls[c].phase != Completed
    ensures ValidBut(cfg, rank, s.(calls := s.calls[c := call]), c)
  {
    hide InOrder, Sound, Supported;
  }

  lemma PhaseKeeps(cfg: Config, rank: string -> nat, s: Loader, c: nat, call: Call)
    requires Acyclic(cfg.modules, rank) && c < |s.calls| && ValidBut(cfg, rank, s, c) && s.calls[c].phase != Completed
    requires InOrder(cfg, rank, s.table, call)
    ensures Valid(cfg, rank, s.(calls := s.calls[c := call]))
  {
    SkipKeeps(cfg, rank, s, c, call);
    hide InOrder, Sound, Supported, RequestsValid, CompletionsValid;
  }

  lemma CompleteKeeps(cfg: Config, rank: string -> nat, s: Loader, c: nat)
    requires Acyclic(cfg.modules, rank) && c < |s.calls| && ValidBut(cfg, rank, s, c) && InQueue(cfg, rank, s.table, s.calls[c])
    requires s.calls[c].phase != Completed && s.calls[c].queue == []
    ensures Valid(cfg, rank, Complete(s, c))
  {
    var call := s.calls[c];
    OrderAllIsOrdered(cfg.modules, rank, call.requested);
    var q := OrderAll(cfg.modules, rank, call.requested);
    assert q[..|q|] == q;
    var r := Complete(s, c);
    assert Fulfilled(cfg, r, Completion(c, s.table));
  }

  lemma RequestKeeps(cfg: Config, rank: string -> nat, s: Loader, c: nat)
    requires Acyclic(cfg.modules, rank) && c < |s.calls| && ValidBut(cfg, rank, s, c) && InQueue(cfg, rank, s.table, s.calls[c])
    requires s.calls[c].phase != Completed && s.calls[c].queue != [] && s.calls[c].queue[0] !in s.table
    ensures Valid(cfg, rank, Advance(cfg, s, c)) && Grows(s.table, Advance(cfg, s, c).table)
  {
    HeadSupported(cfg, rank, s.table, s.calls[c]);
    var r := Advance(cfg, s, c);
    assert Grows(s.table, r.table);
    forall k | 0 <= k < |r.calls| && k != c ensures InOrder(cfg, rank, r.table, r.calls[k]) {
      GrowsKeeps(cfg, rank, s.table, r.table, s.calls[k]);
    }
  }

  lemma StepKeeps(cfg: Config, rank: string -> nat, s: Loader, e: Event)
    requires Acyclic(cfg.modules, rank) && Valid(cfg, rank, s)
    ensures Valid(cfg, rank, Step(cfg, rank, s, e)) && Grows(s.table, Step(cfg, rank, s, e).table)
  {
    match e
    case Load(names) =>
      var started := s.(calls := s.calls + [Call(names, OrderAll(cfg.modules, rank, names), 0, false, Sleeping)]);
      FreshValid(cfg, rank, s, names);
      AdvanceKeeps(cfg, rank, started, |s.calls|);
    case Arrives(c) => ArrivesKeeps(cfg, rank, s, c);
    case GoesOn(c) =>
      if c < |s.calls| && s.calls[c].phase == Arrived && s.calls[c].queue != [] {
        TailInQueue(cfg, rank, s.table, s.calls[c]);
        AdvanceKeeps(cfg, rank, s.(calls := s.calls[c := s.calls[c].(queue := s.calls[c].queue[1..])]), c);
      }
    case Wakes(c) =>
      if c < |s.calls| && s.calls[c].phase == Sleeping { AdvanceKeeps(cfg, rank, s, c); }
    case LocaleArrives(c) =>
      if c < |s.calls| && s.calls[c].phase == FetchingLocale { CompleteKeeps(cfg, rank, s, c); }
  }

  lemma FreshValid(cfg: Config, rank: string -> nat, s: Loader, names: seq<string>)
    requires Acyclic(cfg.modules, rank) && Valid(cfg, rank, s)
    ensures var call := Call(names, OrderAll(cfg.modules, rank, names), 0, false, Sleeping);
            ValidBut(cfg, rank, s.(calls := s.calls + [call]), |s.calls|) && InQueue(cfg, rank, s.table, call)
  {
    var q := OrderAll(cfg.modules, rank, names);
    assert q[0..] == q && q[..0] == [];
  }

  lemma ArrivesKeeps(cfg: Config, rank: string -> nat, s: Loader, c: nat)
    requires Acyclic(cfg.modules, rank) && Valid(cfg, rank, s)
    ensures Valid(cfg, rank, Step(cfg, rank, s, Arrives(c))) && Grows(s.table, Step(cfg, rank, s, Arrives(c)).table)
  {
    if c < |s.calls| && s.calls[c].phase == Fetching && s.calls[c].queue != [] {
      var r := Step(cfg, rank, s, Arrives(c));
      assert Grows(s.table, r.table);
      forall k | 0 <= k < |r.calls| ensures InOrder(cfg, rank, r.table, r.calls[k]) {
        GrowsKeeps(cfg, rank, s.table, r.table, s.calls[k]);
      }
    }
  }

  lemma {:induction false} RunIsValid(cfg: Config, rank: string -> nat, es: seq<Event>)
    requires Acyclic(cfg.modules, rank)
    ensures Valid(cfg, rank, Run(cfg, rank, es))
  {
    if es != [] {
      RunIsValid(cfg, rank, es[..|es| - 1]);
      StepKeeps(cfg, rank, Run(cfg, rank, es[..|es| - 1]), es[|es| - 1]);
    }
  }

  // ---------------------------------------------------------------- what a page can rely on

  /** `d` is a known dependency of `m`, or of a known dependency, and so on. */
  ghost predicate Needs(modules: Modules, rank: string -> nat, m: string, d: string)
    requires Acyclic(modules, rank)
    decreases rank(m)
  {
    m in modules && exists e :: e in modules[m] && e in modules && (e == d || Needs(modules, rank, e, d))
  }

  lemma {:induction false} NeedsAreLoaded(modules: Modules, rank: string -> nat, table: map<string, Status>, m: string, d: string)
    requires Acyclic(modules, rank) && Sound(modules, table) && Supported(modules, table, m) && Needs(modules, rank, m, d)
    ensures IsLoaded(table, d)
    decreases rank(m)
  {
    var e :| e in modules[m] && e in modules && (e == d || Needs(modules, rank, e, d));
    if e != d {
      NeedsAreLoaded(modules, rank, table, e, d);
    }
  }

  /** No script is requested twice, whichever calls want it. */
  lemma RequestedAtMostOnce(cfg: Config, rank: string -> nat, es: seq<Event>, i: nat, j: nat)
    requires Acyclic(cfg.modules, rank) && i < j < |Run(cfg, rank, es).requests|
    ensures Run(cfg, rank, es).requests[i].script != Run(cfg, rank, es).requests[j].script
  {
    RunIsValid(cfg, rank, es);
  }

  /** When a script is requested, every module it needs, however indirectly, is loaded. */
  lemma RequestedAfterDependencies(cfg: Config, rank: string -> nat, es: seq<Event>, i: nat, d: string)
    requires Acyclic(cfg.modules, rank) && i < |Run(cfg, rank, es).requests|
    requires Needs(cfg.modules, rank, Run(cfg, rank, es).requests[i].script, d)
    ensures IsLoaded(Run(cfg, rank, es).requests[i].table, d)
  {
    RunIsValid(cfg, rank, es);
    var r := Run(cfg, rank, es).requests[i];
    NeedsAreLoaded(cfg.modules, rank, r.table, r.script, d);
  }

  /** A call completes at most once, and only when every known module it asked for, and
      everything those need, is loaded. */
  lemma CompletedAfterLoading(cfg: Config, rank: string -> nat, es: seq<Event>, i: nat, m: string, d: string)
    requires Acyclic(cfg.modules, rank) && i < |Run(cfg, rank, es).completions|
    requires var s := Run(cfg, rank, es);
             var c := s.completions[i].call;
             c < |s.calls| ==> m in s.calls[c].requested && m in cfg.modules && (d == m || Needs(cfg.modules, rank, m, d))
    ensures var s := Run(cfg, rank, es);
            && IsLoaded(s.completions[i].table, d)
            && forall j :: 0 <= j < |s.completions| && j != i ==> s.completions[j].call != s.completions[i].call
  {
    RunIsValid(cfg, rank, es);
    var s := Run(cfg, rank, es);
    assert Fulfilled(cfg, s, s.completions[i]);
    if d != m {
      NeedsAreLoaded(cfg.modules, rank, s.completions[i].table, m, d);
    }
  }

  /** Whatever is loaded stays loaded. */
  lemma {:induction false} LoadedStays(cfg: Config, rank: string -> nat, es: seq<Event>, more: seq<Event>, m: string)
    requires Acyclic(cfg.modules, rank) && IsLoaded(Run(cfg, rank, es).table, m)
    ensures IsLoaded(Run(cfg, rank, es + more).table, m)
    decreases |more|
  {
    if more == [] {
      assert es + more == es;
    } else {
      var longer := es + more[..|more| - 1];
      LoadedStays(cfg, rank, es, more[..|more| - 1], m);
      assert (es + more)[..|es + more| - 1] == longer;
      RunIsValid(cfg, rank, longer);
      StepKeeps(cfg, rank, Run(cfg, rank, longer), more[|more| - 1]);
    }
  }

  // ---------------------------------------------------------------- how a call ends

  /** The queue from its first module on that is not loaded. */
  function Rest(table: map<string, Status>, queue: seq<string>): seq<string> {
    if queue != [] && queue[0] in table && table[queue[0]] == Loaded then Rest(table, queue[1..]) else queue
  }

  /** What `_1e` makes of its call. */
  lemma {:induction false} AdvanceIs(cfg: Config, s: Loader, c: nat)
    requires c < |s.calls|
    ensures var call, r, q := s.calls[c], Advance(cfg, s, c), Rest(s.table, s.calls[c].queue);
            && |r.calls| == |s.calls| && (forall k :: 0 <= k < |s.calls| && k != c ==> r.calls[k] == s.calls[k])
            && r.calls[c].requested == call.requested && (r.calls[c].fetched <==> call.fetched || (q != [] && q[0] !in s.table))
            && r.requests == s.requests + (if q != [] && q[0] !in s.table then [Request(q[0], s.table)] else [])
            && r.completions == s.completions + (if q == [] && !(cfg.locale && call.fetched) then [Completion(c, s.table)] else [])
            && |q| <= |call.queue| && r.calls[c].queue == q && (q != [] && q[0] in s.table ==> s.table[q[0]] == Loading)
            && if q == [] then
                 r.table == s.table && r.calls[c].phase == if cfg.locale && call.fetched then FetchingLocale else Completed
               else if q[0] !in s.table then
                 r.table == s.table[q[0] := Loading] && r.calls[c].phase == Fetching && r.calls[c].elapsed == call.elapsed
               else if call.elapsed < cfg.timeout then
                 r.table == s.table && r.calls[c].phase == Sleeping && r.calls[c].elapsed == call.elapsed + 10
               else
                 r.table == s.table && r.calls[c].phase == GaveUp
    decreases |s.calls[c].queue|
  {
    var call := s.calls[c];
    if call.queue != [] && call.queue[0] in s.table && s.table[call.queue[0]] == Loaded {
      AdvanceIs(cfg, s.(calls := s.calls[c := call.(queue := call.queue[1..])]), c);
    }
  }

  // ---------------------------------------------------------------- requests and completions

  ghost predicate Asks(s: Loader, i: int, m: string) {
    0 <= i < |s.requests| && s.requests[i].script == m
  }

  ghost predicate Names(s: Loader, i: int, c: nat) {
    0 <= i < |s.completions| && s.completions[i].call == c
  }

  /** Call `c` asked for `m`, or for a module that needs it. */
  ghost predicate WantedBy(modules: Modules, rank: string -> nat, s: Loader, c: int, m: string)
    requires Acyclic(modules, rank)
  {
    0 <= c < |s.calls| && exists n :: n in s.calls[c].requested && n in modules && (n == m || Needs(modules, rank, n, m))
  }

  ghost predicate HasRequest(s: Loader, m: string) {
    exists i :: Asks(s, i, m)
  }

  ghost predicate HasCompletion(s: Loader, c: nat) {
    exists i :: Names(s, i, c)
  }

  ghost predicate Wanted(modules: Modules, rank: string -> nat, s: Loader, m: string)
    requires Acyclic(modules, rank)
  {
    exists c :: WantedBy(modules, rank, s, c, m)
  }

  /** The table lists what has been requested. */
  ghost predicate TableRight(s: Loader) {
    forall m :: m in s.table <==> HasRequest(s, m)
  }

  /** Completed calls are those with a completion. */
  ghost predicate CompletionsRight(s: Loader) {
    && (forall c: nat :: c < |s.calls| ==> (s.calls[c].phase == Completed <==> HasCompletion(s, c)))
    && (forall i :: 0 <= i < |s.completions| ==> s.completions[i].call < |s.calls|)
  }

  /** Nothing is requested without need. */
  ghost predicate RequestsRight(modules: Modules, rank: string -> nat, s: Loader)
    requires Acyclic(modules, rank)
  {
    forall i :: 0 <= i < |s.requests| ==> Wanted(modules, rank, s, s.requests[i].script)
  }

  ghost predicate Recorded(cfg: Config, rank: string -> nat, s: Loader)
    requires Acyclic(cfg.modules, rank)
  {
    TableRight(s) && CompletionsRight(s) && RequestsRight(cfg.modules, rank, s)
  }

  /** `add` orders a module, what it needs, and nothing else. */
  lemma {:induction false} OrderIsNeeded(modules: Modules, rank: string -> nat, n: string, m: string)
    requires Acyclic(modules, rank)
    ensures m in Order(modules, rank, n) <==> n in modules && (m == n || (m in modules && Needs(modules, rank, n, m)))
    decreases rank(n), 1
  {
    if n in modules {
      DependenciesNeeded(modules, rank, n, |modules[n]|, m);
    }
  }

  lemma {:induction false} DependenciesNeeded(modules: Modules, rank: string -> nat, n: string, k: nat, m: string)
    requires Acyclic(modules, rank) && n in modules && k <= |modules[n]|
    ensures m in DependencyOrder(modules, rank, n, k) <==>
            exists i :: 0 <= i < k && modules[n][i] in modules && (modules[n][i] == m || (m in modules && Needs(modules, rank, modules[n][i], m)))
    decreases rank(n), 0, k
  {
    if k > 0 {
      var d := modules[n][k - 1];
      DependenciesNeeded(modules, rank, n, k - 1, m);
      if d in modules { OrderIsNeeded(modules, rank, d, m); }
    }
  }

  lemma {:induction false} OrderAllIsWanted(modules: Modules, rank: string -> nat, names: seq<string>, m: string)
    requires Acyclic(modules, rank) && m in OrderAll(modules, rank, names)
    ensures exists n :: n in names && n in modules && (n == m || Needs(modules, rank, n, m))
  {
    if names != [] {
      var last := names[|names| - 1];
      if m in Order(modules, rank, last) {
        OrderIsNeeded(modules, rank, last, m);
      } else {
        OrderAllIsWanted(modules, rank, names[..|names| - 1], m);
      }
    }
  }

  lemma {:induction false} RestIsInside(table: map<string, Status>, queue: seq<string>, m: string)
    requires m in Rest(table, queue)
    ensures m in queue
  {
    if queue != [] && queue[0] in table && table[queue[0]] == Loaded {
      RestIsInside(table, queue[1..], m);
    }
  }

  /** One call looks; the records stay right. */
  lemma AdvanceRecords(cfg: Config, rank: string -> nat, s: Loader, c: nat)
    requires Acyclic(cfg.modules, rank) && Recorded(cfg, rank, s) && c < |s.calls| && s.calls[c].phase != Completed
    requires InQueue(cfg, rank, s.table, s.calls[c])
    ensures Recorded(cfg, rank, Advance(cfg, s, c))
  {
    AdvanceIs(cfg, s, c);
    var r, q, call := Advance(cfg, s, c), Rest(s.table, s.calls[c].queue), s.calls[c];
    if q != [] {
      RestIsInside(s.table, call.queue, q[0]);
      OrderAllIsWanted(cfg.modules, rank, call.requested, q[0]);
      assert WantedBy(cfg.modules, rank, s, c, q[0]);
    }
    hide Advance, Rest, InQueue, WantedBy, Acyclic, TableRight, CompletionsRight, RequestsRight;
    TableRecords(s, r, q);
    CompletionRecords(s, r, c);
    NeedRecords(cfg, rank, s, r, c, q);
  }

  lemma TableRecords(s: Loader, r: Loader, q: seq<string>)
    requires TableRight(s)
    requires if q != [] && q[0] !in s.table then r.table == s.table[q[0] := Loading] && r.requests == s.requests + [Request(q[0], s.table)]
             else r.table == s.table && r.requests == s.requests
    ensures TableRight(r)
  {
    forall m ensures m in r.table <==> HasRequest(r, m) {
      if q != [] && q[0] !in s.table && m == q[0] {
        assert Asks(r, |s.requests|, m);
      } else {
        assert m in s.table <==> HasRequest(s, m);
        if m in s.table { var i :| Asks(s, i, m); assert Asks(r, i, m); }
        if i :| Asks(r, i, m) { assert Asks(s, i, m); }
      }
    }
  }

  lemma CompletionRecords(s: Loader, r: Loader, c: nat)
    requires CompletionsRight(s) && c < |s.calls| == |r.calls| && s.calls[c].phase != Completed
    requires forall k :: 0 <= k < |s.calls| && k != c ==> r.calls[k] == s.calls[k]
    requires if r.calls[c].phase == Completed then |r.completions| == |s.completions| + 1 && r.completions[..|s.completions|] == s.completions && r.completions[|s.completions|].call == c
             else r.completions == s.completions
    ensures CompletionsRight(r)
  {
    forall k: nat | k < |r.calls| ensures r.calls[k].phase == Completed <==> HasCompletion(r, k) {
      assert s.calls[k].phase == Completed <==> HasCompletion(s, k);
      if k == c && r.calls[c].phase == Completed {
        assert Names(r, |s.completions|, k);
      } else {
        if i :| Names(s, i, k) { assert Names(r, i, k); }
        if i :| Names(r, i, k) { assert Names(s, i, k); }
      }
    }
  }

  /** Calls keep what they asked for. */
  lemma WantedStays(modules: Modules, rank: string -> nat, s: Loader, r: Loader, m: string)
    requires Acyclic(modules, rank) && Wanted(modules, rank, s, m) && |s.calls| <= |r.calls|
    requires forall k :: 0 <= k < |s.calls| ==> r.calls[k].requested == s.calls[k].requested
    ensures Wanted(modules, rank, r, m)
  {
    hide Needs, Acyclic;
    var k :| WantedBy(modules, rank, s, k, m);
    assert r.calls[k].requested == s.calls[k].requested;
    assert WantedBy(modules, rank, r, k, m);
  }

  lemma NeedRecords(cfg: Config, rank: string -> nat, s: Loader, r: Loader, c: nat, q: seq<string>)
    requires Acyclic(cfg.modules, rank) && RequestsRight(cfg.modules, rank, s) && c < |s.calls| <= |r.calls|
    requires forall k :: 0 <= k < |s.calls| ==> r.calls[k].requested == s.calls[k].requested
    requires r.requests == s.requests || (q != [] && r.requests == s.requests + [Request(q[0], s.table)])
    requires q != [] ==> WantedBy(cfg.modules, rank, s, c, q[0])
    ensures RequestsRight(cfg.modules, rank, r)
  {
    hide WantedBy, Acyclic;
    forall i | 0 <= i < |r.requests| ensures Wanted(cfg.modules, rank, r, r.requests[i].script) {
      if i < |s.requests| { assert Wanted(cfg.modules, rank, s, s.requests[i].script); }
      WantedStays(cfg.modules, rank, s, r, r.requests[i].script);
    }
  }

  /** A call that starts, or goes on without looking, changes no record. */
  lemma SameRecords(cfg: Config, rank: string -> nat, s: Loader, t: Loader)
    requires Acyclic(cfg.modules, rank) && Recorded(cfg, rank, s) && |s.calls| <= |t.calls|
    requires (forall m :: m in t.table <==> m in s.table) && t.requests == s.requests && t.completions == s.completions
    requires forall c :: 0 <= c < |s.calls| ==> t.calls[c].requested == s.calls[c].requested && (t.calls[c].phase == Completed <==> s.calls[c].phase == Completed)
    requires forall c :: |s.calls| <= c < |t.calls| ==> t.calls[c].phase != Completed
    ensures Recorded(cfg, rank, t)
  {
    hide WantedBy, Acyclic;
    forall m ensures HasRequest(t, m) <==> HasRequest(s, m) {
      if i :| Asks(t, i, m) { assert Asks(s, i, m); }
      if i :| Asks(s, i, m) { assert Asks(t, i, m); }
    }
    forall c: nat ensures HasCompletion(t, c) <==> HasCompletion(s, c) {
      if i :| Names(t, i, c) { assert Names(s, i, c); }
      if i :| Names(s, i, c) { assert Names(t, i, c); }
    }
    forall c: nat | |s.calls| <= c ensures !HasCompletion(s, c) {
      if i :| Names(s, i, c) { assert false; }
    }
    forall i | 0 <= i < |t.requests| ensures Wanted(cfg.modules, rank, t, t.requests[i].script) {
      assert Wanted(cfg.modules, rank, s, s.requests[i].script);
      WantedStays(cfg.modules, rank, s, t, t.requests[i].script);
    }
  }

  lemma ValidCall(cfg: Config, rank: string -> nat, s: Loader, c: nat)
    requires Acyclic(cfg.modules, rank) && Valid(cfg, rank, s) && c < |s.calls|
    ensures var call := s.calls[c];
            && InQueue(cfg, rank, s.table, call)
            && (call.phase == Fetching ==> call.queue != [] && call.queue[0] in s.table)
            && (call.phase == Arrived ==> call.queue != [] && IsLoaded(s.table, call.queue[0]))
  {
    assert InOrder(cfg, rank, s.table, s.calls[c]);
    hide InQueue;
  }

  lemma LoadRecords(cfg: Config, rank: string -> nat, s: Loader, names: seq<string>)
    requires Acyclic(cfg.modules, rank) && Valid(cfg, rank, s) && Recorded(cfg, rank, s)
    ensures Recorded(cfg, rank, Step(cfg, rank, s, Load(names)))
  {
    var t := s.(calls := s.calls + [Call(names, OrderAll(cfg.modules, rank, names), 0, false, Sleeping)]);
    FreshValid(cfg, rank, s, names);
    hide Valid, ValidBut, Recorded, Advance, InQueue, Acyclic;
    SameRecords(cfg, rank, s, t);
    AdvanceRecords(cfg, rank, t, |s.calls|);
  }

  lemma ArrivesRecords(cfg: Config, rank: string -> nat, s: Loader, c: nat)
    requires Acyclic(cfg.modules, rank) && Valid(cfg, rank, s) && Recorded(cfg, rank, s)
    requires c < |s.calls| && s.calls[c].phase == Fetching && s.calls[c].queue != []
    ensures Recorded(cfg, rank, Step(cfg, rank, s, Arrives(c)))
  {
    hide Valid, Recorded, InQueue, Acyclic;
    ValidCall(cfg, rank, s, c);
    SameRecords(cfg, rank, s, Step(cfg, rank, s, Arrives(c)));
  }

  lemma GoesOnRecords(cfg: Config, rank: string -> nat, s: Loader, c: nat)
    requires Acyclic(cfg.modules, rank) && Valid(cfg, rank, s) && Recorded(cfg, rank, s)
    requires c < |s.calls| && s.calls[c].phase == Arrived && s.calls[c].queue != []
    ensures Recorded(cfg, rank, Step(cfg, rank, s, GoesOn(c)))
  {
    hide Valid, Recorded, Advance, InQueue, Acyclic;
    ValidCall(cfg, rank, s, c);
    var t := s.(calls := s.calls[c := s.calls[c].(queue := s.calls[c].queue[1..])]);
    TailInQueue(cfg, rank, s.table, s.calls[c]);
    SameRecords(cfg, rank, s, t);
    AdvanceRecords(cfg, rank, t, c);
  }

  lemma LocaleRecords(cfg: Config, rank: string -> nat, s: Loader, c: nat)
    requires Acyclic(cfg.modules, rank) && Recorded(cfg, rank, s) && c < |s.calls| && s.calls[c].phase == FetchingLocale
    ensures Recorded(cfg, rank, Complete(s, c))
  {
    hide TableRight, CompletionsRight, RequestsRight, Acyclic;
    var r := Complete(s, c);
    TableRecords(s, r, []);
    CompletionRecords(s, r, c);
    NeedRecords(cfg, rank, s, r, c, []);
  }

  lemma StepRecords(cfg: Config, rank: string -> nat, s: Loader, e: Event)
    requires Acyclic(cfg.modules, rank) && Valid(cfg, rank, s) && Recorded(cfg, rank, s)
    ensures Recorded(cfg, rank, Step(cfg, rank, s, e))
  {
    match e
    case Load(names) => LoadRecords(cfg, rank, s, names);
    case Arrives(c) =>
      if c < |s.calls| && s.calls[c].phase == Fetching && s.calls[c].queue != [] { ArrivesRecords(cfg, rank, s, c); }
    case GoesOn(c) =>
      if c < |s.calls| && s.calls[c].phase == Arrived && s.calls[c].queue != [] { GoesOnRecords(cfg, rank, s, c); }
    case Wakes(c) =>
      if c < |s.calls| && s.calls[c].phase == Sleeping {
        hide Valid, Recorded, Advance;
        ValidCall(cfg, rank, s, c);
        AdvanceRecords(cfg, rank, s, c);
      }
    case LocaleArrives(c) =>
      if c < |s.calls| && s.calls[c].phase == FetchingLocale { LocaleRecords(cfg, rank, s, c); }
  }

  lemma {:induction false} RunRecords(cfg: Config, rank: string -> nat, es: seq<Event>)
    requires Acyclic(cfg.modules, rank)
    ensures Recorded(cfg, rank, Run(cfg, rank, es))
  {
    if es != [] {
      RunRecords(cfg, rank, es[..|es| - 1]);
      RunIsValid(cfg, rank, es[..|es| - 1]);
      StepRecords(cfg, rank, Run(cfg, rank, es[..|es| - 1]), es[|es| - 1]);
    }
  }

  /** The modules of the table are those whose script has been requested; a call that waits for a
      script waits for one that has been requested. */
  lemma RequestedExactly(cfg: Config, rank: string -> nat, es: seq<Event>, m: string)
    requires Acyclic(cfg.modules, rank)
    ensures var s := Run(cfg, rank, es);
            && (m in s.table <==> exists i :: 0 <= i < |s.requests| && s.requests[i].script == m)
            && forall c :: 0 <= c < |s.calls| && s.calls[c].phase == Fetching ==>
                 s.calls[c].queue != [] && exists i :: 0 <= i < |s.requests| && s.requests[i].script == s.calls[c].queue[0]
  {
    RunRecords(cfg, rank, es);
    RunIsValid(cfg, rank, es);
    var s := Run(cfg, rank, es);
    forall n ensures n in s.table <==> exists i :: 0 <= i < |s.requests| && s.requests[i].script == n {
      assert n in s.table <==> HasRequest(s, n);
      if n in s.table { var i :| Asks(s, i, n); }
      if i :| 0 <= i < |s.requests| && s.requests[i].script == n { assert Asks(s, i, n); }
    }
    forall c | 0 <= c < |s.calls| && s.calls[c].phase == Fetching
      ensures s.calls[c].queue != [] && s.calls[c].queue[0] in s.table
    {
      assert InOrder(cfg, rank, s.table, s.calls[c]);
    }
  }

  /** A call has completed exactly when a completion names it. */
  lemma CompletedExactly(cfg: Config, rank: string -> nat, es: seq<Event>, c: nat)
    requires Acyclic(cfg.modules, rank) && c < |Run(cfg, rank, es).calls|
    ensures var s := Run(cfg, rank, es);
            s.calls[c].phase == Completed <==> exists i :: 0 <= i < |s.completions| && s.completions[i].call == c
  {
    RunRecords(cfg, rank, es);
    var s := Run(cfg, rank, es);
    assert s.calls[c].phase == Completed <==> HasCompletion(s, c);
    if s.calls[c].phase == Completed { var i :| Names(s, i, c); }
    if i :| 0 <= i < |s.completions| && s.completions[i].call == c { assert Names(s, i, c); }
  }

  /** Every script that is requested was asked for by a call, or is needed by a module that was. */
  lemma RequestedOnlyIfNeeded(cfg: Config, rank: string -> nat, es: seq<Event>, i: nat)
    requires Acyclic(cfg.modules, rank) && i < |Run(cfg, rank, es).requests|
    ensures var s := Run(cfg, rank, es);
            exists c, n :: 0 <= c < |s.calls| && n in s.calls[c].requested && n in cfg.modules &&
                           (n == s.requests[i].script || Needs(cfg.modules, rank, n, s.requests[i].script))
  {
    RunRecords(cfg, rank, es);
    var s := Run(cfg, rank, es);
    assert Wanted(cfg.modules, rank, s, s.requests[i].script);
    var c :| WantedBy(cfg.modules, rank, s, c, s.requests[i].script);
  }

  /** Call `c` waits for the script of `m`. */
  ghost predicate Fetches(s: Loader, c: int, m: string) {
    0 <= c < |s.calls| && s.calls[c].phase == Fetching && s.calls[c].queue != [] && s.calls[c].queue[0] == m
  }

  /** A script that has been requested and not arrived is one some call waits for. */
  ghost predicate Fetched(s: Loader) {
    forall m :: m in s.table && s.table[m] == Loading ==> exists c :: Fetches(s, c, m)
  }

  lemma AdvanceFetched(cfg: Config, s: Loader, c: nat)
    requires c < |s.calls| && Fetched(s) && s.calls[c].phase != Fetching
    ensures Fetched(Advance(cfg, s, c))
  {
    AdvanceIs(cfg, s, c);
    var r := Advance(cfg, s, c);
    hide Advance, Rest;
    forall m | m in r.table && r.table[m] == Loading
      ensures exists k :: Fetches(r, k, m)
    {
      if m in s.table && s.table[m] == Loading {
        var k :| Fetches(s, k, m);
        assert Fetches(r, k, m);
      } else {
        assert Fetches(r, c, m);
      }
    }
  }

  /** Two loaders of which the second still waits for whatever the first did. */
  lemma SameFetched(s: Loader, t: Loader)
    requires Fetched(s) && |s.calls| <= |t.calls| && t.table == s.table
    requires forall c :: 0 <= c < |s.calls| && s.calls[c].phase == Fetching ==> t.calls[c] == s.calls[c]
    ensures Fetched(t)
  {
    forall m | m in t.table && t.table[m] == Loading
      ensures exists c :: Fetches(t, c, m)
    {
      var c :| Fetches(s, c, m);
      assert Fetches(t, c, m);
    }
  }

  lemma StepFetched(cfg: Config, rank: string -> nat, s: Loader, e: Event)
    requires Acyclic(cfg.modules, rank) && Fetched(s)
    ensures Fetched(Step(cfg, rank, s, e))
  {
    match e
    case Load(names) =>
      var t := s.(calls := s.calls + [Call(names, OrderAll(cfg.modules, rank, names), 0, false, Sleeping)]);
      SameFetched(s, t);
      AdvanceFetched(cfg, t, |s.calls|);
    case Arrives(c) =>
      var t := Step(cfg, rank, s, e);
      forall m | m in t.table && t.table[m] == Loading
        ensures exists k :: Fetches(t, k, m)
      {
        var k :| Fetches(s, k, m);
        assert Fetches(t, k, m);
      }
    case GoesOn(c) =>
      if c < |s.calls| && s.calls[c].phase == Arrived && s.calls[c].queue != [] {
        var t := s.(calls := s.calls[c := s.calls[c].(queue := s.calls[c].queue[1..])]);
        SameFetched(s, t);
        AdvanceFetched(cfg, t, c);
      }
    case Wakes(c) =>
      if c < |s.calls| && s.calls[c].phase == Sleeping { AdvanceFetched(cfg, s, c); }
    case LocaleArrives(c) =>
      SameFetched(s, Step(cfg, rank, s, e));
  }

  lemma {:induction false} RunFetched(cfg: Config, rank: string -> nat, es: seq<Event>)
    requires Acyclic(cfg.modules, rank)
    ensures Fetched(Run(cfg, rank, es))
  {
    if es != [] {
      RunFetched(cfg, rank, es[..|es| - 1]);
      StepFetched(cfg, rank, Run(cfg, rank, es[..|es| - 1]), es[|es| - 1]);
    }
  }

  /** The queue from the first module on that call `c` misses when event `e` makes it look: a timer,
      its own script, or the `load` that starts it. */
  ghost function Missed(cfg: Config, rank: string -> nat, s: Loader, e: Event, c: nat): seq<string>
    requires Acyclic(cfg.modules, rank)
  {
    if !Looking(s, e, c) then []
    else match e
      case Load(names) => Rest(s.table, OrderAll(cfg.modules, rank, names))
      case GoesOn(_) => Rest(s.table, s.calls[c].queue[1..])
      case _ => Rest(s.table, s.calls[c].queue)
  }

  /** Event `e` makes call `c` look at its queue. */
  ghost predicate Looking(s: Loader, e: Event, c: nat) {
    match e
    case Load(names) => c == |s.calls|
    case GoesOn(k) => k == c && c < |s.calls| && s.calls[c].phase == Arrived && s.calls[c].queue != []
    case Wakes(k) => k == c && c < |s.calls| && s.calls[c].phase == Sleeping
    case _ => false
  }

  function Waited(s: Loader, c: nat): nat {
    if c < |s.calls| then s.calls[c].elapsed else 0
  }

  ghost predicate HasGivenUp(s: Loader, c: nat) {
    c < |s.calls| && s.calls[c].phase == GaveUp
  }

  /** Event `e` makes call `c` look in vain: its time is over, and the first module it misses has
      been requested already. */
  ghost predicate InVain(cfg: Config, rank: string -> nat, s: Loader, e: Event, c: nat)
    requires Acyclic(cfg.modules, rank)
  {
    var q := Missed(cfg, rank, s, e, c);
    q != [] && q[0] in s.table && Waited(s, c) >= cfg.timeout
  }

  /** What an event does to a call that looks. */
  lemma LookIs(cfg: Config, rank: string -> nat, s: Loader, e: Event, c: nat)
    requires Acyclic(cfg.modules, rank) && Looking(s, e, c)
    ensures var r, q := Step(cfg, rank, s, e), Missed(cfg, rank, s, e, c);
            && c < |r.calls|
            && (q != [] && q[0] in s.table ==> s.table[q[0]] == Loading)
            && (r.calls[c].phase == GaveUp <==> InVain(cfg, rank, s, e, c))
            && (q == [] || q[0] !in s.table ==> r.calls[c].phase in {Fetching, FetchingLocale, Completed})
  {
    match e
    case Load(names) =>
      AdvanceIs(cfg, s.(calls := s.calls + [Call(names, OrderAll(cfg.modules, rank, names), 0, false, Sleeping)]), c);
    case GoesOn(_) =>
      AdvanceIs(cfg, s.(calls := s.calls[c := s.calls[c].(queue := s.calls[c].queue[1..])]), c);
    case _ => AdvanceIs(cfg, s, c);
  }

  /** An event that does not make a call look does not make it give up. */
  lemma OthersGoOn(cfg: Config, rank: string -> nat, s: Loader, e: Event, c: nat)
    requires Acyclic(cfg.modules, rank) && !Looking(s, e, c)
    ensures HasGivenUp(Step(cfg, rank, s, e), c) <==> HasGivenUp(s, c)
  {
    match e
    case Load(names) =>
      AdvanceIs(cfg, s.(calls := s.calls + [Call(names, OrderAll(cfg.modules, rank, names), 0, false, Sleeping)]), |s.calls|);
    case GoesOn(k) =>
      if k < |s.calls| && s.calls[k].phase == Arrived && s.calls[k].queue != [] {
        AdvanceIs(cfg, s.(calls := s.calls[k := s.calls[k].(queue := s.calls[k].queue[1..])]), k);
      }
    case Wakes(k) =>
      if k < |s.calls| && s.calls[k].phase == Sleeping { AdvanceIs(cfg, s, k); }
    case _ =>
  }

  /** An event makes a call give up exactly when it looks in vain; the script it misses is then
      still on its way to another call. */
  lemma GivesUpExactly(cfg: Config, rank: string -> nat, es: seq<Event>, e: Event, c: nat)
    requires Acyclic(cfg.modules, rank)
    ensures var s := Run(cfg, rank, es);
            && (HasGivenUp(Step(cfg, rank, s, e), c) <==> HasGivenUp(s, c) || InVain(cfg, rank, s, e, c))
            && (InVain(cfg, rank, s, e, c) ==> !HasGivenUp(s, c) && exists k :: k != c && Fetches(s, k, Missed(cfg, rank, s, e, c)[0]))
  {
    var s := Run(cfg, rank, es);
    RunFetched(cfg, rank, es);
    if Looking(s, e, c) {
      LookIs(cfg, rank, s, e, c);
    } else {
      OthersGoOn(cfg, rank, s, e, c);
    }
  }

  /** Event `i` of a run makes call `c` look in vain. */
  ghost predicate VainAt(cfg: Config, rank: string -> nat, es: seq<Event>, i: int, c: nat)
    requires Acyclic(cfg.modules, rank)
  {
    0 <= i < |es| && InVain(cfg, rank, Run(cfg, rank, es[..i]), es[i], c)
  }

  /** Hence a call has given up in a run exactly when one of the events made it look in vain. */
  lemma {:induction false} HasGivenUpExactly(cfg: Config, rank: string -> nat, es: seq<Event>, c: nat)
    requires Acyclic(cfg.modules, rank)
    ensures HasGivenUp(Run(cfg, rank, es), c) <==> exists i :: VainAt(cfg, rank, es, i, c)
  {
    hide Step, InVain;
    if es != [] {
      var n := |es| - 1;
      HasGivenUpExactly(cfg, rank, es[..n], c);
      GivesUpExactly(cfg, rank, es[..n], es[n], c);
      forall i ensures VainAt(cfg, rank, es, i, c) <==> VainAt(cfg, rank, es[..n], i, c) || (i == n && InVain(cfg, rank, Run(cfg, rank, es[..n]), es[n], c)) {
        if 0 <= i < n { assert es[..n][..i] == es[..i]; }
      }
      assert VainAt(cfg, rank, es, n, c) <==> InVain(cfg, rank, Run(cfg, rank, es[..n]), es[n], c);
    }
  }

  /** Two calls for one module, the second of which looks `n` times more. */
  function TwoLoads(m: string, n: nat): seq<Event> {
    [Load([m]), Load([m])] + seq(n, _ => Wakes(1))
  }

  lemma OneModule(cfg: Config, rank: string -> nat, m: string)
    requires Acyclic(cfg.modules, rank) && m in cfg.modules && cfg.modules[m] == []
    ensures OrderAll(cfg.modules, rank, [m]) == [m]
  {
    assert [m][..0] == [];
    assert Order(cfg.modules, rank, m) == [m];
  }

  /** Whatever the timeout, the second call gives up when it has looked often enough while the
      script is on its way. */
  lemma SecondGivesUp(cfg: Config, rank: string -> nat, m: string)
    requires Acyclic(cfg.modules, rank) && m in cfg.modules && cfg.modules[m] == []
    ensures HasGivenUp(Run(cfg, rank, TwoLoads(m, (cfg.timeout + 9) / 10)), 1)
  {
    SecondWaits(cfg, rank, m, (cfg.timeout + 9) / 10);
  }

  /** The second call after `n` more looks. */
  ghost predicate SecondAt(cfg: Config, s: Loader, m: string, n: nat) {
    && s.table == map[m := Loading] && |s.calls| == 2
    && s.calls[1] == if 10 * n < cfg.timeout then Call([m], [m], 10 * n + 10, false, Sleeping) else Call([m], [m], 10 * n, false, GaveUp)
  }

  lemma FirstLook(cfg: Config, rank: string -> nat, m: string)
    requires Acyclic(cfg.modules, rank) && OrderAll(cfg.modules, rank, [m]) == [m]
    ensures SecondAt(cfg, Step(cfg, rank, Step(cfg, rank, Loader(map[], [], [], []), Load([m])), Load([m])), m, 0)
  {
    hide OrderAll;
    var first := Step(cfg, rank, Loader(map[], [], [], []), Load([m]));
    assert first == Loader(map[m := Loading], [Call([m], [m], 0, true, Fetching)], [Request(m, map[])], []);
  }

  lemma NextLook(cfg: Config, rank: string -> nat, s: Loader, m: string, n: nat)
    requires Acyclic(cfg.modules, rank) && SecondAt(cfg, s, m, n) && 10 * n < cfg.timeout
    ensures SecondAt(cfg, Step(cfg, rank, s, Wakes(1)), m, n + 1)
  {}

  lemma {:induction false} SecondWaits(cfg: Config, rank: string -> nat, m: string, n: nat)
    requires Acyclic(cfg.modules, rank) && m in cfg.modules && cfg.modules[m] == []
    requires 10 * n < cfg.timeout + 10
    ensures SecondAt(cfg, Run(cfg, rank, TwoLoads(m, n)), m, n)
    decreases n
  {
    hide Step, SecondAt, OrderAll;
    var es := TwoLoads(m, n);
    if n == 0 {
      OneModule(cfg, rank, m);
      FirstLook(cfg, rank, m);
      var one := [Load([m])];
      assert es == [Load([m]), Load([m])] && es[..1] == one && one[..0] == [];
      assert Run(cfg, rank, one) == Step(cfg, rank, Run(cfg, rank, []), Load([m]));
      assert Run(cfg, rank, es) == Step(cfg, rank, Run(cfg, rank, one), Load([m]));
    } else {
      assert es[..|es| - 1] == TwoLoads(m, n - 1) && es[|es| - 1] == Wakes(1);
      SecondWaits(cfg, rank, m, n - 1);
      NextLook(cfg, rank, Run(cfg, rank, TwoLoads(m, n - 1)), m, n - 1);
    }
  }

  /** Once no script is on its way, a call that looks requests one or completes. */
  lemma GoesOnWhenAllArrived(cfg: Config, rank: string -> nat, es: seq<Event>, e: Event, c: nat)
    requires Acyclic(cfg.modules, rank) && Looking(Run(cfg, rank, es), e, c)
    requires forall k :: 0 <= k < |Run(cfg, rank, es).calls| ==> Run(cfg, rank, es).calls[k].phase != Fetching
    ensures var t := Step(cfg, rank, Run(cfg, rank, es), e);
            c < |t.calls| && t.calls[c].phase in {Fetching, FetchingLocale, Completed}
  {
    RunFetched(cfg, rank, es);
    LookIs(cfg, rank, Run(cfg, rank, es), e, c);
  }

  /** How many events can still change a call. */
  function Left(cfg: Config, call: Call): nat {
    match call.phase
    case GaveUp => 0
    case Completed => 0
    case FetchingLocale => 1
    case Arrived => 2 + Looks(cfg, call) + 4 * |call.queue| + 1
    case Fetching => 2 + Looks(cfg, call) + 4 * |call.queue| + 2
    case Sleeping => 2 + Looks(cfg, call) + 4 * |call.queue| + 3
  }

  /** How often it may still look before its time is over. */
  function Looks(cfg: Config, call: Call): nat {
    if call.elapsed < cfg.timeout then (cfg.timeout - call.elapsed + 9) / 10 else 0
  }

  /** Every event that changes a call brings it nearer to its end. */
  lemma StepNearer(cfg: Config, rank: string -> nat, s: Loader, e: Event, c: nat)
    requires Acyclic(cfg.modules, rank) && Valid(cfg, rank, s) && c < |s.calls|
    ensures var r := Step(cfg, rank, s, e);
            |r.calls| >= |s.calls| && (r.calls[c] == s.calls[c] || Left(cfg, r.calls[c]) < Left(cfg, s.calls[c]))
  {
    hide Valid, OrderAll;
    match e
    case Load(names) =>
      AdvanceIs(cfg, s.(calls := s.calls + [Call(names, OrderAll(cfg.modules, rank, names), 0, false, Sleeping)]), |s.calls|);
    case Arrives(k) =>
    case GoesOn(k) =>
      if k < |s.calls| && s.calls[k].phase == Arrived && s.calls[k].queue != [] {
        AdvanceIs(cfg, s.(calls := s.calls[k := s.calls[k].(queue := s.calls[k].queue[1..])]), k);
      }
    case Wakes(k) =>
      if k < |s.calls| && s.calls[k].phase == Sleeping { AdvanceIs(cfg, s, k); }
    case LocaleArrives(k) =>
  }

  /** How many of the events `more` change call `c` after the run `es`. */
  ghost function Changes(cfg: Config, rank: string -> nat, es: seq<Event>, more: seq<Event>, c: nat): nat
    requires Acyclic(cfg.modules, rank)
  {
    if more == [] then 0 else
      var before, after := Run(cfg, rank, es + more[..|more| - 1]), Run(cfg, rank, es + more);
      Changes(cfg, rank, es, more[..|more| - 1], c) +
      if c < |before.calls| && c < |after.calls| && before.calls[c] != after.calls[c] then 1 else 0
  }

  /** A call takes part in a bounded number of events, however the calls interleave. */
  lemma {:induction false} CallsAreFinite(cfg: Config, rank: string -> nat, es: seq<Event>, more: seq<Event>, c: nat)
    requires Acyclic(cfg.modules, rank) && c < |Run(cfg, rank, es).calls|
    ensures c < |Run(cfg, rank, es + more).calls|
    ensures Changes(cfg, rank, es, more, c) + Left(cfg, Run(cfg, rank, es + more).calls[c]) <= Left(cfg, Run(cfg, rank, es).calls[c])
    decreases |more|
  {
    hide Left, Step, Valid, Acyclic;
    if more == [] {
      assert es + more == es;
    } else {
      var longer := es + more[..|more| - 1];
      CallsAreFinite(cfg, rank, es, more[..|more| - 1], c);
      assert (es + more)[..|es + more| - 1] == longer;
      RunIsValid(cfg, rank, longer);
      StepNearer(cfg, rank, Run(cfg, rank, longer), more[|more| - 1], c);
    }
  }

  /** A call is left alone by every event exactly when it has completed or given up. */
  lemma NeverStuck(cfg: Config, rank: string -> nat, es: seq<Event>, c: nat)
    requires Acyclic(cfg.modules, rank) && c < |Run(cfg, rank, es).calls|
    ensures (forall e :: LeavesAlone(cfg, rank, Run(cfg, rank, es), e, c)) <==> Run(cfg, rank, es).calls[c].phase in {Completed, GaveUp}
  {
    RunIsValid(cfg, rank, es);
    var s := Run(cfg, rank, es);
    if s.calls[c].phase in {Completed, GaveUp} {
      forall e ensures LeavesAlone(cfg, rank, s, e, c) {
        StepNearer(cfg, rank, s, e, c);
      }
    } else {
      OwnEvent(cfg, rank, s, c);
    }
  }

  ghost predicate LeavesAlone(cfg: Config, rank: string -> nat, s: Loader, e: Event, c: nat)
    requires Acyclic(cfg.modules, rank)
  {
    c < |s.calls| && c < |Step(cfg, rank, s, e).calls| && Step(cfg, rank, s, e).calls[c] == s.calls[c]
  }

  lemma OwnEvent(cfg: Config, rank: string -> nat, s: Loader, c: nat)
    requires Acyclic(cfg.modules, rank) && Valid(cfg, rank, s) && c < |s.calls| && s.calls[c].phase !in {Completed, GaveUp}
    ensures exists e :: !LeavesAlone(cfg, rank, s, e, c)
  {
    var call := s.calls[c];
    assert InOrder(cfg, rank, s.table, call);
    hide Valid, OrderAll;
    match call.phase
    case Fetching => assert !LeavesAlone(cfg, rank, s, Arrives(c), c);
    case Arrived =>
      AdvanceIs(cfg, s.(calls := s.calls[c := call.(queue := call.queue[1..])]), c);
      assert !LeavesAlone(cfg, rank, s, GoesOn(c), c);
    case Sleeping =>
      AdvanceIs(cfg, s, c);
      assert !LeavesAlone(cfg, rank, s, Wakes(c), c);
    case FetchingLocale => assert !LeavesAlone(cfg, rank, s, Event.LocaleArrives(c), c);
    case _ =>
  }

  // ---------------------------------------------------------------- the loader itself

  class Browser {
    const cfg: Config
    ghost const rank: string -> nat
    var table: map<string, Status>
    var calls: seq<Call>
    ghost var requests: seq<Request>
    ghost var completions: seq<Completion>

    ghost function Current(): Loader
      reads this
    {
      Loader(table, calls, requests, completions)
    }

    constructor (cfg: Config, ghost rank: string -> nat)
      ensures this.cfg == cfg && this.rank == rank && Current() == Loader(map[], [], [], [])
    {
      this.cfg, this.rank := cfg, rank;
      table, calls, requests, completions := map[], [], [], [];
    }

    /** `add`, appending to the queue `mm` of one call. */
    method Add(m: string, mm: seq<string>) returns (r: seq<string>)
      requires Acyclic(cfg.modules, rank)
      ensures r == mm + Order(cfg.modules, rank, m)
      decreases rank(m)
    {
      r := mm;
      if m in cfg.modules {
        var d := cfg.modules[m];
        for i := 0 to |d|
          invariant r == mm + DependencyOrder(cfg.modules, rank, m, i)
        {
          if d[i] in cfg.modules {
            r := Add(d[i], r);
          }
        }
        r := r + [m];
      }
    }

    method Load(names: seq<string>)
      requires Acyclic(cfg.modules, rank)
      modifies this
      ensures Current() == Step(cfg, rank, old(Current()), Event.Load(names))
    {
      var mm: seq<string> := [];
      for i := 0 to |names|
        invariant mm == OrderAll(cfg.modules, rank, names[..i]) && Current() == old(Current())
      {
        assert names[..i + 1][..i] == names[..i];
        mm := Add(names[i], mm);
      }
      assert names[..|names|] == names;
      calls := calls + [Call(names, mm, 0, false, Sleeping)];
      RunQueue(|calls| - 1);
    }

    /** `_1e`: it calls itself again after every module it may skip. */
    method RunQueue(c: nat)
      requires c < |calls|
      modifies this
      ensures Current() == Advance(cfg, old(Current()), c)
    {
      while calls[c].queue != [] && calls[c].queue[0] in table && table[calls[c].queue[0]] == Loaded
        invariant c < |calls| && Advance(cfg, Current(), c) == Advance(cfg, old(Current()), c)
        decreases |calls[c].queue|
      {
        calls := calls[c := calls[c].(queue := calls[c].queue[1..])];
      }
      var call := calls[c];
      if call.queue == [] {
        if cfg.locale && call.fetched {
          calls := calls[c := call.(phase := FetchingLocale)];
        } else {
          Finish(c);
        }
      } else if call.queue[0] !in table {
        requests := requests + [Request(call.queue[0], table)];
        table := table[call.queue[0] := Loading];
        calls := calls[c := call.(fetched := true, phase := Fetching)];
      } else if call.elapsed < cfg.timeout {
        calls := calls[c := call.(elapsed := call.elapsed + 10, phase := Sleeping)];
      } else {
        calls := calls[c := call.(phase := GaveUp)];
      }
    }

    method Finish(c: nat)
      requires c < |calls|
      modifies this
      ensures Current() == Complete(old(Current()), c)
    {
      completions := completions + [Completion(c, table)];
      calls := calls[c := calls[c].(phase := Completed)];
    }

    /** The script's `onload`, up to the progress callback. */
    method ScriptArrives(c: nat)
      requires Acyclic(cfg.modules, rank)
      modifies this
      ensures Current() == Step(cfg, rank, old(Current()), Arrives(c))
    {
      if c < |calls| && calls[c].phase == Fetching && calls[c].queue != [] {
        table := table[calls[c].queue[0] := Loaded];
        calls := calls[c := calls[c].(phase := Arrived)];
      }
    }

    /** What the script's call does after the progress callback. */
    method ScriptDone(c: nat)
      requires Acyclic(cfg.modules, rank)
      modifies this
      ensures Current() == Step(cfg, rank, old(Current()), GoesOn(c))
    {
      if c < |calls| && calls[c].phase == Arrived && calls[c].queue != [] {
        calls := calls[c := calls[c].(queue := calls[c].queue[1..])];
        RunQueue(c);
      }
    }

    method TimerFires(c: nat)
      requires Acyclic(cfg.modules, rank)
      modifies this
      ensures Current() == Step(cfg, rank, old(Current()), Wakes(c))
    {
      if c < |calls| && calls[c].phase == Sleeping {
        RunQueue(c);
      }
    }

    method LocaleArrives(c: nat)
      requires Acyclic(cfg.modules, rank)
      modifies this
      ensures Current() == Step(cfg, rank, old(Current()), Event.LocaleArrives(c))
    {
      if c < |calls| && calls[c].phase == FetchingLocale {
        Finish(c);
      }
    }
  }
}
