/** jQuery's callback lists and the Deferred built from three of them. User code runs between
    the steps: a callback may add, resolve, reject or notify before it returns, and the list
    that called it goes on from its shared index. */
module Deferred {
  import opened Wrappers

  /** The context and the arguments of a settlement or a notification. */
  type Args(==)

  /** A callback: the user's, or one of those a Deferred installs for itself. */
  datatype Callback = User(id: nat) | SetResolved | SetRejected | DisableDone | DisableFail | LockProgress

  // ---------------------------------------------------------------- one callback list

  /** What an operation leaves behind, and the arguments of the loop it starts, if any. */
  datatype Outcome = Outcome(list: Callbacks, fire: Option<Args>)

  /** The closure variables of `Callbacks`. Every list of a Deferred has the memory flag and
      none has `stopOnFalse`, so the memory is never the constant `true`. */
  datatype Callbacks = Callbacks(
    once: bool, list: Option<seq<Callback>>, stack: Option<seq<Args>>, memory: Option<Args>,
    firing: bool, firingLength: nat, firingIndex: nat)
  {
    /** An unlocked list is not disabled, and a running loop stays inside its list. */
    predicate Valid() {
      (stack.Some? ==> list.Some?) && (list.Some? && firing ==> firingLength <= |list.value|)
    }

    /** `fire`, up to its loop. */
    function Begin(args: Args, start: nat): (r: Callbacks)
      requires Valid() && list.Some? && !firing
      ensures r.Valid() && r.firing
    {
      this.(memory := Some(args), firing := true, firingIndex := start, firingLength := |list.value|)
    }

    function Add(fs: seq<Callback>): (r: Outcome)
      requires Valid()
      ensures r.list.Valid() && (r.fire.Some? ==> !firing && r.list.firing) && (r.fire.None? ==> r.list.firing == firing)
    {
      if list.None? then Outcome(this, None)
      else
        var longer := this.(list := Some(list.value + fs));
        if firing then Outcome(longer.(firingLength := |longer.list.value|), None)
        else if memory.Some? then Outcome(longer.Begin(memory.value, |list.value|), memory)
        else Outcome(longer, None)
    }

    function FireWith(args: Args): (r: Outcome)
      requires Valid()
      ensures r.list.Valid() && (r.fire.Some? ==> !firing && r.list.firing) && (r.fire.None? ==> r.list.firing == firing)
    {
      if stack.None? then Outcome(this, None)
      else if firing then Outcome(if once then this else this.(stack := Some(stack.value + [args])), None)
      else if !once || memory.None? then Outcome(Begin(args, 0), Some(args))
      else Outcome(this, None)
    }

    predicate HasNext() {
      list.Some? && firingIndex < firingLength
    }

    function Advance(): (r: Callbacks)
      requires Valid()
      ensures r.Valid() && r.firing == firing
    {
      this.(firingIndex := firingIndex + 1)
    }

    /** `fire`, from the end of its loop on. */
    function Finish(): (r: Outcome)
      requires Valid()
      ensures r.list.Valid() && (r.fire.Some? <==> r.list.firing)
      ensures r.fire.Some? ==> stack.Some? && r.list.stack.Some? && |r.list.stack.value| < |stack.value|
    {
      var quiet := this.(firing := false);
      if list.None? then Outcome(quiet, None)
      else if once then Outcome(quiet.(list := Some([])), None)
      else if stack.Some? && stack.value != [] then quiet.(stack := Some(stack.value[1..])).FireWith(stack.value[0])
      else Outcome(quiet, None)
    }

    function Disable(): (r: Callbacks)
      ensures r.Valid() && r.firing == firing
    {
      this.(list := None, stack := None, memory := None)
    }

    function Lock(): (r: Callbacks)
      requires Valid()
      ensures r.Valid() && r.firing == firing
    {
      var locked := this.(stack := None);
      if memory.None? then locked.Disable() else locked
    }
  }

  /** The list object itself, its operations up to the point where they call a callback. */
  class CallbackList {
    const once: bool
    var list: Option<seq<Callback>>
    var stack: Option<seq<Args>>
    var memory: Option<Args>
    var firing: bool
    var firingStart: nat
    var firingLength: nat
    var firingIndex: nat

    function Current(): Callbacks
      reads this
    {
      Callbacks(once, list, stack, memory, firing, firingLength, firingIndex)
    }

    ghost predicate Valid()
      reads this
    {
      Current().Valid() && firingStart == 0
    }

    constructor (once: bool)
      ensures Valid() && Current() == Callbacks(once, Some([]), Some([]), None, false, 0, 0)
    {
      this.once := once;
      list, stack, memory, firing := Some([]), Some([]), None, false;
      firingStart, firingLength, firingIndex := 0, 0, 0;
    }

    method Begin(args: Args)
      requires Current().Valid() && list.Some? && !firing
      modifies this
      ensures Valid() && Current() == old(Current()).Begin(args, old(firingStart))
    {
      memory := Some(args);
      firing := true;
      firingIndex := firingStart;
      firingStart := 0;
      firingLength := |list.value|;
    }

    method Add(fs: seq<Callback>) returns (fire: Option<Args>)
      requires Valid()
      modifies this
      ensures Valid() && Outcome(Current(), fire) == old(Current()).Add(fs)
    {
      fire := None;
      if list.Some? {
        var start := |list.value|;
        list := Some(list.value + fs);
        if firing {
          firingLength := |list.value|;
        } else if memory.Some? {
          firingStart := start;
          fire := memory;
          Begin(memory.value);
        }
      }
    }

    method FireWith(args: Args) returns (fire: Option<Args>)
      requires Valid()
      modifies this
      ensures Valid() && Outcome(Current(), fire) == old(Current()).FireWith(args)
    {
      fire := None;
      if stack.Some? {
        if firing {
          if !once {
            stack := Some(stack.value + [args]);
          }
        } else if !once || memory.None? {
          fire := Some(args);
          Begin(args);
        }
      }
    }

    method Finish() returns (fire: Option<Args>)
      requires Valid()
      modifies this
      ensures Valid() && Outcome(Current(), fire) == old(Current()).Finish()
    {
      fire := None;
      firing := false;
      if list.Some? {
        if once {
          list := Some([]);
        } else if stack.Some? && |stack.value| > 0 {
          var args := stack.value[0];
          stack := Some(stack.value[1..]);
          fire := FireWith(args);
        }
      }
    }

    method Disable()
      requires Valid()
      modifies this
      ensures Valid() && Current() == old(Current()).Disable()
    {
      list, stack, memory := None, None, None;
    }

    method Lock()
      requires Valid()
      modifies this
      ensures Valid() && Current() == old(Current()).Lock()
    {
      stack := None;
      if memory.None? {
        Disable();
      }
    }
  }

  // ---------------------------------------------------------------- three lists and a state

  datatype Which = DoneList | FailList | ProgressList

  datatype Status = Pending | Resolved | Rejected

  /** A loop of `fire` in progress, waiting for the callback it has called. */
  datatype Frame = Frame(which: Which, args: Args)

  /** A user callback that has been called. */
  datatype Call = Call(which: Which, id: nat, args: Args)

  /** The number of running loops over list `w`. */
  ghost function Loops(frames: seq<Frame>, w: Which): nat {
    if frames == [] then 0
    else Loops(frames[..|frames| - 1], w) + if frames[|frames| - 1].which == w then 1 else 0
  }

  lemma LoopsPush(frames: seq<Frame>, f: Frame, w: Which)
    ensures Loops(frames + [f], w) == Loops(frames, w) + if f.which == w then 1 else 0
  {
    assert (frames + [f])[..|frames|] == frames;
  }

  datatype Machine = Machine(
    done: Callbacks, fail: Callbacks, progress: Callbacks, status: Status,
    frames: seq<Frame>, log: seq<Call>)
  {
    function Of(w: Which): Callbacks {
      match w case DoneList => done case FailList => fail case ProgressList => progress
    }

    function With(w: Which, c: Callbacks): Machine {
      match w case DoneList => this.(done := c) case FailList => this.(fail := c) case ProgressList => this.(progress := c)
    }

    /** One loop per list at most, and exactly the firing lists have one. */
    ghost predicate Valid() {
      && done.Valid() && fail.Valid() && progress.Valid()
      && Loops(frames, DoneList) == (if done.firing then 1 else 0)
      && Loops(frames, FailList) == (if fail.firing then 1 else 0)
      && Loops(frames, ProgressList) == (if progress.firing then 1 else 0)
    }

    /** The callbacks a Deferred gives to its own lists. */
    function Apply(c: Callback): (r: Machine)
      requires Valid() && !c.User?
      ensures r.Valid() && r.frames == frames && r.log == log && r.Room() <= Room()
      ensures forall w: Which :: r.Of(w).firingLength == Of(w).firingLength && r.Of(w).firingIndex == Of(w).firingIndex
    {
      match c
      case SetResolved => this.(status := Resolved)
      case SetRejected => this.(status := Rejected)
      case DisableDone => this.(done := done.Disable())
      case DisableFail => this.(fail := fail.Disable())
      case LockProgress => this.(progress := progress.Lock())
    }

    /** Notifications that wait for the running one. */
    function Room(): nat {
      Waiting(done) + Waiting(fail) + Waiting(progress)
    }

    static function Waiting(c: Callbacks): nat {
      if c.stack.Some? then |c.stack.value| else 0
    }

    /** List `w` starts a loop inside whatever is running. */
    function Enter(w: Which, c: Callbacks, args: Args): (r: Machine)
      requires Valid() && c.Valid() && !Of(w).firing && c.firing
      ensures r.Valid() && r.frames == frames + [Frame(w, args)] && r.log == log && r.status == status
      ensures r == With(w, c).(frames := frames + [Frame(w, args)])
      ensures r.Todo() == c.firingLength - c.firingIndex
    {
      var f := Frame(w, args);
      LoopsPush(frames, f, DoneList); LoopsPush(frames, f, FailList); LoopsPush(frames, f, ProgressList);
      With(w, c).(frames := frames + [f])
    }

    /** How far the innermost loop has to go. */
    function Todo(): int
      requires frames != []
    {
      Of(frames[|frames| - 1].which).firingLength - Of(frames[|frames| - 1].which).firingIndex
    }

    /** The loop of the innermost frame, until it calls user code or ends. */
    function Loop(): (r: Machine)
      requires Valid() && frames != []
      ensures r.Valid()
      decreases Room(), 1, Todo()
    {
      var frame := frames[|frames| - 1];
      var c := Of(frame.which);
      if c.HasNext() then
        match c.list.value[c.firingIndex]
        case User(id) => this.(log := log + [Call(frame.which, id, frame.args)])
        case own => Through(own).Loop()
      else Left()
    }

    /** One of the Deferred's own callbacks, called by the innermost loop. */
    function Through(own: Callback): (r: Machine)
      requires Valid() && frames != [] && !own.User?
      ensures r.Valid() && r.frames == frames && r.log == log && r.Room() <= Room() && r.Todo() == Todo() - 1
    {
      Apply(own).Advanced()
    }

    function Advanced(): (r: Machine)
      requires Valid() && frames != []
      ensures r.Valid() && r.frames == frames && r.log == log && r.Room() == Room() && r.Todo() == Todo() - 1
    {
      var w := frames[|frames| - 1].which;
      With(w, Of(w).Advance())
    }

    /** The end of the innermost loop; a waiting notification starts the next one. */
    function Left(): (r: Machine)
      requires Valid() && frames != []
      ensures r.Valid()
      decreases Room(), 0
    {
      var w := frames[|frames| - 1].which;
      var o := Of(w).Finish();
      if o.fire.Some? then Popped().Enter(w, o.list, o.fire.value).Loop() else Popped().With(w, o.list)
    }

    /** The innermost loop is over. */
    function Popped(): (r: Machine)
      requires Valid() && frames != []
      ensures r.Valid() && r.frames == frames[..|frames| - 1] && r.log == log && r.status == status
      ensures r == With(frames[|frames| - 1].which, Of(frames[|frames| - 1].which).(firing := false)).(frames := frames[..|frames| - 1])
      ensures r.Room() == Room()
    {
      var w := frames[|frames| - 1].which;
      With(w, Of(w).(firing := false)).(frames := frames[..|frames| - 1])
    }

    /** An operation of list `w` that may have started a loop. */
    function Act(w: Which, o: Outcome): (r: Machine)
      requires Valid() && o.list.Valid() && (o.fire.Some? ==> !Of(w).firing && o.list.firing) && (o.fire.None? ==> o.list.firing == Of(w).firing)
      ensures r.Valid()
    {
      if o.fire.Some? then Enter(w, o.list, o.fire.value).Loop() else With(w, o.list)
    }
  }

  // ---------------------------------------------------------------- runs

  /** What user code may do next, at top level or inside a callback; `Return` ends the
      innermost callback. */
  datatype Op = Add(which: Which, ids: seq<nat>) | Resolve(args: Args) | Reject(args: Args) | Notify(args: Args) | Return

  function Users(ids: seq<nat>): (cs: seq<Callback>)
    ensures |cs| == |ids|
  {
    seq(|ids|, i requires 0 <= i < |ids| => User(ids[i]))
  }

  function Own(w: Which): seq<Callback> {
    match w
    case DoneList => [SetResolved, DisableFail, LockProgress]
    case FailList => [SetRejected, DisableDone, LockProgress]
    case ProgressList => []
  }

  ghost function Start(): (m: Machine)
    ensures m.Valid()
  {
    var done := Callbacks(true, Some([]), Some([]), None, false, 0, 0).Add(Own(DoneList)).list;
    var fail := Callbacks(true, Some([]), Some([]), None, false, 0, 0).Add(Own(FailList)).list;
    Machine(done, fail, Callbacks(false, Some([]), Some([]), None, false, 0, 0), Pending, [], [])
  }

  ghost function Step(m: Machine, op: Op): (r: Machine)
    requires m.Valid()
    ensures r.Valid()
  {
    match op
    case Add(w, ids) => m.Act(w, m.Of(w).Add(Users(ids)))
    case Resolve(a) => m.Act(DoneList, m.done.FireWith(a))
    case Reject(a) => m.Act(FailList, m.fail.FireWith(a))
    case Notify(a) => m.Act(ProgressList, m.progress.FireWith(a))
    case Return => if m.frames == [] then m else m.Advanced().Loop()
  }

  ghost function Run(ops: seq<Op>): (m: Machine)
    ensures m.Valid()
  {
    if ops == [] then Start() else Step(Run(ops[..|ops| - 1]), ops[|ops| - 1])
  }

  /** The callbacks handed to list `w`, in order. */
  ghost function Added(ops: seq<Op>, w: Which): seq<nat> {
    if ops == [] then []
    else
      var op := ops[|ops| - 1];
      Added(ops[..|ops| - 1], w) + if op.Add? && op.which == w then op.ids else []
  }

  /** The first `resolve` or `reject`. */
  ghost function Settled(ops: seq<Op>): Option<Frame> {
    if ops == [] then None
    else
      var before, op := Settled(ops[..|ops| - 1]), ops[|ops| - 1];
      if before.Some? then before
      else if op.Resolve? then Some(Frame(DoneList, op.args))
      else if op.Reject? then Some(Frame(FailList, op.args))
      else None
  }

  /** The calls that list `w` has made. */
  ghost function CallsOf(log: seq<Call>, w: Which): seq<Call> {
    if log == [] then []
    else CallsOf(log[..|log| - 1], w) + if log[|log| - 1].which == w then [log[|log| - 1]] else []
  }

  lemma CallsPush(log: seq<Call>, c: Call, w: Which)
    ensures CallsOf(log + [c], w) == CallsOf(log, w) + if c.which == w then [c] else []
  {
    assert (log + [c])[..|log|] == log;
  }

  /** One call of each of `ids`, in order, with the same arguments. */
  ghost function Served(w: Which, ids: seq<nat>, a: Args): (cs: seq<Call>)
    ensures |cs| == |ids|
  {
    seq(|ids|, i requires 0 <= i < |ids| => Call(w, ids[i], a))
  }

  // ---------------------------------------------------------------- the invariant

  function Other(w: Which): Which {
    if w == DoneList then FailList else DoneList
  }

  function StatusOf(w: Which): Status {
    if w == DoneList then Resolved else Rejected
  }

  ghost predicate OnlyUsers(c: Callbacks) {
    c.list.Some? ==> forall i :: 0 <= i < |c.list.value| ==> c.list.value[i].User?
  }

  /** Before anything is settled. */
  ghost predicate Untouched(c: Callbacks, own: seq<Callback>, ids: seq<nat>) {
    c.once && c.list == Some(own + Users(ids)) && c.stack.Some? && c.memory.None? && !c.firing
  }

  ghost predicate Off(c: Callbacks) {
    c.list.None? && c.stack.None? && c.memory.None? && !c.firing
  }

  ghost predicate AllArgs(frames: seq<Frame>, w: Which, a: Args) {
    forall i :: 0 <= i < |frames| && frames[i].which == w ==> frames[i].args == a
  }

  /** The loop over list `w` has called the first `p` of `ids` and is about to look further. */
  ghost predicate Looking(m: Machine, w: Which, a: Args, ids: seq<nat>, p: nat) {
    var c := m.Of(w);
    && c.once && c.memory == Some(a) && c.stack.Some? && c.firing && c.list.Some? && p <= |ids|
    && c.firingLength == |c.list.value| && c.firingIndex <= c.firingLength
    && c.list.value[c.firingIndex..] == Users(ids[p..])
    && CallsOf(m.log, w) == Served(w, ids[..p], a)
  }

  /** All of `ids` have been called, or the loop waits inside the call of number `p`. */
  ghost predicate Serving(m: Machine, w: Which, a: Args, ids: seq<nat>) {
    var c := m.Of(w);
    && AllArgs(m.frames, w, a) && c.once && c.memory == Some(a) && c.stack.Some?
    && if c.firing then Inside(m, w, a, ids)
       else c.list == Some([]) && CallsOf(m.log, w) == Served(w, ids, a)
  }

  /** Called and not returned yet: what is left of the list is what is left of `ids`. */
  ghost predicate Inside(m: Machine, w: Which, a: Args, ids: seq<nat>) {
    var c := m.Of(w);
    && c.list.Some? && c.firingLength == |c.list.value| && c.firingIndex < c.firingLength
    && LeftOver(c) <= |ids|
    && c.list.value[c.firingIndex + 1..] == Users(ids[|ids| - LeftOver(c)..])
    && CallsOf(m.log, w) == Served(w, ids[..|ids| - LeftOver(c)], a)
  }

  function LeftOver(c: Callbacks): (n: nat)
    requires c.firingIndex < c.firingLength
  {
    c.firingLength - c.firingIndex - 1
  }

  ghost predicate Inv(m: Machine, doneIds: seq<nat>, failIds: seq<nat>, settled: Option<Frame>) {
    && m.Valid() && OnlyUsers(m.progress)
    && match settled
       case None =>
         && m.status == Pending && Untouched(m.done, Own(DoneList), doneIds) && Untouched(m.fail, Own(FailList), failIds)
         && CallsOf(m.log, DoneList) == [] && CallsOf(m.log, FailList) == []
       case Some(f) =>
         && f.which != ProgressList && m.status == StatusOf(f.which)
         && Off(m.Of(Other(f.which))) && CallsOf(m.log, Other(f.which)) == []
         && Serving(m, f.which, f.args, if f.which == DoneList then doneIds else failIds)
  }

  // ---------------------------------------------------------------- the loop over user callbacks

  /** From there the loop either calls the next one or ends with all of them called. */
  lemma LoopServes(m: Machine, w: Which, a: Args, ids: seq<nat>, p: nat)
    requires m.Valid() && m.frames != [] && m.frames[|m.frames| - 1] == Frame(w, a) && AllArgs(m.frames, w, a)
    requires Looking(m, w, a, ids, p) && w != ProgressList
    ensures Serving(m.Loop(), w, a, ids) && Same(m, m.Loop(), w)
  {
    if m.Of(w).HasNext() { LoopCalls(m, w, a, ids, p); } else { LoopEnds(m, w, a, ids, p); }
  }

  lemma LoopCalls(m: Machine, w: Which, a: Args, ids: seq<nat>, p: nat)
    requires m.Valid() && m.frames != [] && m.frames[|m.frames| - 1] == Frame(w, a) && AllArgs(m.frames, w, a)
    requires Looking(m, w, a, ids, p) && w != ProgressList && m.Of(w).HasNext()
    ensures Serving(m.Loop(), w, a, ids) && Same(m, m.Loop(), w)
  {
    var c := m.Of(w);
    assert c.list.value[c.firingIndex] == c.list.value[c.firingIndex..][0] == User(ids[p]);
    CallsUser(m);
    hide Machine.Valid, Machine.Loop;
    var r := m.(log := m.log + [Call(w, ids[p], a)]);
    CallsPush(m.log, Call(w, ids[p], a), w);
    CallsPush(m.log, Call(w, ids[p], a), Other(w));
    assert Served(w, ids[..p], a) + [Call(w, ids[p], a)] == Served(w, ids[..p + 1], a);
    assert c.list.value[c.firingIndex + 1..] == c.list.value[c.firingIndex..][1..];
    UsersTail(ids, p);
    assert |ids| - LeftOver(r.Of(w)) == p + 1;
    assert Inside(r, w, a, ids);
  }

  lemma UsersTail(ids: seq<nat>, p: nat)
    requires p < |ids|
    ensures Users(ids[p..])[1..] == Users(ids[p + 1..])
  {}

  lemma LoopEnds(m: Machine, w: Which, a: Args, ids: seq<nat>, p: nat)
    requires m.Valid() && m.frames != [] && m.frames[|m.frames| - 1] == Frame(w, a) && AllArgs(m.frames, w, a)
    requires Looking(m, w, a, ids, p) && w != ProgressList && !m.Of(w).HasNext()
    ensures Serving(m.Loop(), w, a, ids) && Same(m, m.Loop(), w)
  {
    EndsOnce(m);
    hide Machine.Valid, Machine.Loop;
    assert ids[p..] == [] && ids[..p] == ids;
  }

  /** The next callback is the user's: the loop stops inside it. */
  lemma CallsUser(m: Machine)
    requires m.Valid() && m.frames != []
    requires var c := m.Of(m.frames[|m.frames| - 1].which); c.HasNext() && c.list.value[c.firingIndex].User?
    ensures var f := m.frames[|m.frames| - 1];
            m.Loop() == m.(log := m.log + [Call(f.which, m.Of(f.which).list.value[m.Of(f.which).firingIndex].id, f.args)])
  {}

  /** The end of a loop over a `once` list empties it. */
  lemma EndsOnce(m: Machine)
    requires m.Valid() && m.frames != []
    requires var c := m.Of(m.frames[|m.frames| - 1].which); !c.HasNext() && c.once && c.list.Some?
    ensures var w := m.frames[|m.frames| - 1].which;
            m.Loop() == m.With(w, m.Of(w).(firing := false, list := Some([]))).(frames := m.frames[..|m.frames| - 1])
  {}

  /** Only list `w`, its loop and its calls differ. */
  ghost predicate Same(m: Machine, r: Machine, w: Which) {
    && r.status == m.status && r.progress == m.progress && r.Of(Other(w)) == m.Of(Other(w))
    && CallsOf(r.log, Other(w)) == CallsOf(m.log, Other(w))
  }

  /** A callback of the Deferred's own runs through at once. */
  lemma LoopOwn(m: Machine)
    requires m.Valid() && m.frames != []
    requires var c := m.Of(m.frames[|m.frames| - 1].which); c.HasNext() && !c.list.value[c.firingIndex].User?
    ensures var c := m.Of(m.frames[|m.frames| - 1].which); m.Loop() == m.Through(c.list.value[c.firingIndex]).Loop()
  {}

  /** The first settlement: state, other list and notifications are dealt with before any user
      code runs. */
  lemma SettleServes(m: Machine, w: Which, a: Args, ids: seq<nat>, otherIds: seq<nat>)
    requires m.Valid() && OnlyUsers(m.progress) && w != ProgressList
    requires Untouched(m.Of(w), Own(w), ids) && Untouched(m.Of(Other(w)), Own(Other(w)), otherIds)
    requires CallsOf(m.log, w) == [] && CallsOf(m.log, Other(w)) == []
    ensures JustSettled(m.Act(w, m.Of(w).FireWith(a)), w, a, ids)
  {
    hide *;
    var m1 := OpeningStart(m, w, a, ids, otherIds);
    var m2 := OpeningStep(m1, w, a, ids, 0);
    var m3 := OpeningStep(m2, w, a, ids, 1);
    var m4 := OpeningStep(m3, w, a, ids, 2);
    Opened(m4, w, a, ids);
  }

  lemma OpeningStart(m: Machine, w: Which, a: Args, ids: seq<nat>, otherIds: seq<nat>) returns (r: Machine)
    requires m.Valid() && OnlyUsers(m.progress) && w != ProgressList
    requires Untouched(m.Of(w), Own(w), ids) && Untouched(m.Of(Other(w)), Own(Other(w)), otherIds)
    requires CallsOf(m.log, w) == [] && CallsOf(m.log, Other(w)) == []
    ensures r.progress == m.progress && r.log == m.log && r.frames == m.frames + [Frame(w, a)]
    ensures Opening(r, w, a, ids, 0) && r.frames != [] && r.Valid() && m.Act(w, m.Of(w).FireWith(a)) == r.Loop()
  {
    hide Machine.Valid, Machine.Loop, Machine.Act, CallsOf, AllArgs, Loops;
    r := FirstLoop(m, w, a);
    IdleFrames(m, w, a);
  }

  lemma IdleFrames(m: Machine, w: Which, a: Args)
    requires m.Valid() && !m.Of(w).firing
    ensures AllArgs(m.frames + [Frame(w, a)], w, a)
  {
    NoFrames(m.frames, w, a);
  }

  lemma FirstLoop(m: Machine, w: Which, a: Args) returns (r: Machine)
    requires m.Valid() && w != ProgressList && m.Of(w).list.Some? && m.Of(w).stack.Some? && m.Of(w).memory.None? && !m.Of(w).firing
    ensures r.Valid() && r.frames == m.frames + [Frame(w, a)] && r.frames != [] && m.Act(w, m.Of(w).FireWith(a)) == r.Loop()
    ensures r == m.With(w, m.Of(w).(memory := Some(a), firing := true, firingIndex := 0, firingLength := |m.Of(w).list.value|)).(frames := r.frames)
  {
    r := m.Enter(w, m.Of(w).Begin(a, 0), a);
    assert m.Act(w, m.Of(w).FireWith(a)) == r.Loop();
  }

  ghost predicate JustSettled(r: Machine, w: Which, a: Args, ids: seq<nat>) {
    && OnlyUsers(r.progress) && r.status == StatusOf(w) && Off(r.Of(Other(w))) && CallsOf(r.log, Other(w)) == []
    && Serving(r, w, a, ids)
  }

  /** The loop of the first settlement, after `k` of the Deferred's own callbacks. */
  ghost predicate Opening(m: Machine, w: Which, a: Args, ids: seq<nat>, k: nat) {
    && m.Valid() && OnlyUsers(m.progress) && w != ProgressList && k <= 3
    && m.frames != [] && m.frames[|m.frames| - 1] == Frame(w, a) && AllArgs(m.frames, w, a)
    && Head(m.Of(w), Own(w), a, ids, k) && !m.Of(Other(w)).firing
    && (k >= 1 ==> m.status == StatusOf(w)) && (k >= 2 ==> Off(m.Of(Other(w))))
    && CallsOf(m.log, w) == [] && CallsOf(m.log, Other(w)) == []
  }

  ghost predicate Head(c: Callbacks, own: seq<Callback>, a: Args, ids: seq<nat>, k: nat) {
    && c.once && c.memory == Some(a) && c.stack.Some? && c.firing && c.list == Some(own + Users(ids))
    && c.firingLength == 3 + |ids| && c.firingIndex == k
  }

  lemma HeadNext(c: Callbacks, own: seq<Callback>, a: Args, ids: seq<nat>, k: nat)
    requires Head(c, own, a, ids, k) && k < 3 == |own| && c.Valid()
    ensures c.HasNext() && c.list.value[c.firingIndex] == own[k] && Head(c.Advance(), own, a, ids, k + 1)
  {}

  lemma OpeningStep(m: Machine, w: Which, a: Args, ids: seq<nat>, k: nat) returns (r: Machine)
    requires Opening(m, w, a, ids, k) && k < 3
    ensures Opening(r, w, a, ids, k + 1) && m.frames != [] && r.frames != [] && m.Valid() && r.Valid() && m.Loop() == r.Loop()
    ensures r == m.Through(Own(w)[k])
  {
    HeadNext(m.Of(w), Own(w), a, ids, k);
    LoopOwn(m);
    r := m.Through(Own(w)[k]);
    ThroughOwn(m, w, k);
    hide Machine.Valid, Machine.Loop, Machine.Through, Machine.Apply, Head, AllArgs, CallsOf;
  }

  /** The last of the three locks the notifications. */
  lemma StepLocks(m: Machine, r: Machine, w: Which, a: Args, ids: seq<nat>, k: nat)
    requires Opening(m, w, a, ids, k) && k < 3 && m.Valid() && m.frames != [] && r == m.Through(Own(w)[k])
    ensures r.log == m.log && r.frames == m.frames && r.progress == if k == 2 then m.progress.Lock() else m.progress
  {
    ThroughOwn(m, w, k);
    hide Machine.Valid, Machine.Loop, Machine.Through, Machine.Apply, Head, AllArgs, CallsOf;
  }

  /** What each of the three does, and nothing else. */
  lemma ThroughOwn(m: Machine, w: Which, k: nat)
    requires m.Valid() && w != ProgressList && m.frames != [] && m.frames[|m.frames| - 1].which == w && k < 3
    ensures var next, r := m.With(w, m.Of(w).Advance()), m.Through(Own(w)[k]);
            r == if k == 0 then next.(status := StatusOf(w))
                 else if k == 1 then next.With(Other(w), m.Of(Other(w)).Disable())
                 else next.(progress := m.progress.Lock())
  {
    if k == 0 { FirstOwn(m, w); } else if k == 1 { SecondOwn(m, w); } else { ThirdOwn(m, w); }
    hide Machine.Valid, Machine.Apply;
  }

  lemma FirstOwn(m: Machine, w: Which)
    requires m.Valid() && w != ProgressList
    ensures m.Apply(Own(w)[0]) == m.(status := StatusOf(w))
  {}

  lemma SecondOwn(m: Machine, w: Which)
    requires m.Valid() && w != ProgressList
    ensures m.Apply(Own(w)[1]) == m.With(Other(w), m.Of(Other(w)).Disable())
  {}

  lemma ThirdOwn(m: Machine, w: Which)
    requires m.Valid() && w != ProgressList
    ensures m.Apply(Own(w)[2]) == m.(progress := m.progress.Lock())
  {}

  lemma Opened(m: Machine, w: Which, a: Args, ids: seq<nat>)
    requires Opening(m, w, a, ids, 3)
    ensures m.frames != [] && m.Valid() && JustSettled(m.Loop(), w, a, ids)
  {
    assert (Own(w) + Users(ids))[3..] == Users(ids) && ids[0..] == ids && ids[..0] == [];
    assert Looking(m, w, a, ids, 0);
    LoopServes(m, w, a, ids, 0);
  }

  /** A list that is not firing has no loop, so any arguments will do. */
  lemma {:induction false} NoFrames(frames: seq<Frame>, w: Which, a: Args)
    ensures Loops(frames, w) == 0 ==> AllArgs(frames, w, a)
  {
    if frames != [] {
      NoFrames(frames[..|frames| - 1], w, a);
    }
  }

  /** `done` after `resolve`: called in this loop, or in one of its own. */
  lemma AddServes(m: Machine, w: Which, a: Args, ids: seq<nat>, more: seq<nat>)
    requires m.Valid() && w != ProgressList && Serving(m, w, a, ids)
    ensures var r := m.Act(w, m.Of(w).Add(Users(more)));
            Serving(r, w, a, ids + more) && Same(m, r, w)
  {
    if m.Of(w).firing { AddWhileFiring(m, w, a, ids, more); } else { AddWhileIdle(m, w, a, ids, more); }
  }

  lemma AddWhileFiring(m: Machine, w: Which, a: Args, ids: seq<nat>, more: seq<nat>)
    requires m.Valid() && w != ProgressList && Serving(m, w, a, ids) && m.Of(w).firing
    ensures var r := m.Act(w, m.Of(w).Add(Users(more)));
            Serving(r, w, a, ids + more) && Same(m, r, w)
  {
    var c := m.Of(w);
    var p := |ids| - LeftOver(c);
    var r := m.Act(w, c.Add(Users(more)));
    assert (c.list.value + Users(more))[c.firingIndex + 1..] == c.list.value[c.firingIndex + 1..] + Users(more);
    assert Users(ids[p..]) + Users(more) == Users((ids + more)[p..]);
    assert (ids + more)[..p] == ids[..p];
    assert |ids + more| - LeftOver(r.Of(w)) == p;
    assert Inside(r, w, a, ids + more);
  }

  lemma AddWhileIdle(m: Machine, w: Which, a: Args, ids: seq<nat>, more: seq<nat>)
    requires m.Valid() && w != ProgressList && Serving(m, w, a, ids) && !m.Of(w).firing
    ensures var r := m.Act(w, m.Of(w).Add(Users(more)));
            Serving(r, w, a, ids + more) && Same(m, r, w)
  {
    var m1 := m.Enter(w, m.Of(w).(list := Some(Users(more))).Begin(a, 0), a);
    assert [] + Users(more) == Users(more);
    assert m.Act(w, m.Of(w).Add(Users(more))) == m1.Loop();
    IdleLooks(m, m1, w, a, ids, more);
    hide *;
    LoopServes(m1, w, a, ids + more, |ids|);
    SameTwice(m, m1, m1.Loop(), w);
  }

  lemma IdleLooks(m: Machine, r: Machine, w: Which, a: Args, ids: seq<nat>, more: seq<nat>)
    requires w != ProgressList && Serving(m, w, a, ids) && !m.Of(w).firing
    requires r == m.With(w, m.Of(w).(list := Some(Users(more)), firing := true, firingIndex := 0, firingLength := |more|)).(frames := m.frames + [Frame(w, a)])
    ensures Looking(r, w, a, ids + more, |ids|) && AllArgs(r.frames, w, a) && Same(m, r, w) && r.frames != [] && r.frames[|r.frames| - 1] == Frame(w, a)
    ensures |ids| <= |ids + more|
  {
    assert (ids + more)[..|ids|] == ids && (ids + more)[|ids|..] == more && Users(more)[0..] == Users(more);
  }

  lemma SameTwice(m: Machine, n: Machine, r: Machine, w: Which)
    requires Same(m, n, w) && Same(n, r, w)
    ensures Same(m, r, w)
  {}

  /** The callback returns: its list goes on. */
  lemma ReturnServes(m: Machine, w: Which, a: Args, ids: seq<nat>)
    requires m.Valid() && w != ProgressList && Serving(m, w, a, ids) && m.frames != [] && m.frames[|m.frames| - 1].which == w
    ensures Serving(m.Advanced().Loop(), w, a, ids) && Same(m, m.Advanced().Loop(), w)
  {
    assert m.frames[|m.frames| - 1] == Frame(w, a);
    assert Loops(m.frames, w) >= 1 && m.Of(w).firing;
    var p := |ids| - LeftOver(m.Of(w));
    assert Looking(m.Advanced(), w, a, ids, p);
    LoopServes(m.Advanced(), w, a, ids, p);
  }

  // ---------------------------------------------------------------- notifications keep out of it

  ghost predicate Apart(m: Machine, r: Machine) {
    && r.done == m.done && r.fail == m.fail && r.status == m.status && OnlyUsers(r.progress)
    && CallsOf(r.log, DoneList) == CallsOf(m.log, DoneList) && CallsOf(r.log, FailList) == CallsOf(m.log, FailList)
    && forall f :: f in r.frames && f.which != ProgressList ==> f in m.frames
  }

  lemma {:induction false} ProgressLoop(m: Machine)
    requires m.Valid() && m.frames != [] && m.frames[|m.frames| - 1].which == ProgressList && OnlyUsers(m.progress)
    ensures Apart(m, m.Loop())
    decreases m.Room()
  {
    if m.progress.HasNext() {
      ProgressCalls(m);
    } else if m.progress.Finish().fire.Some? {
      var next := ProgressRestarts(m);
      ProgressLoop(next);
      hide *;
      ApartTwice(m, next, next.Loop());
    } else {
      ProgressStops(m);
    }
  }

  lemma ProgressStops(m: Machine)
    requires m.Valid() && m.frames != [] && m.frames[|m.frames| - 1].which == ProgressList && OnlyUsers(m.progress)
    requires !m.progress.HasNext() && m.progress.Finish().fire.None?
    ensures Apart(m, m.Loop())
  {
    assert m.Loop() == m.Left() == m.Popped().With(ProgressList, m.progress.Finish().list);
    hide Machine.Valid, Machine.Loop, Machine.Left, Loops, CallsOf;
  }

  lemma ProgressRestarts(m: Machine) returns (next: Machine)
    requires m.Valid() && m.frames != [] && m.frames[|m.frames| - 1].which == ProgressList && OnlyUsers(m.progress)
    requires !m.progress.HasNext() && m.progress.Finish().fire.Some?
    ensures next.Valid() && next.frames != [] && next.frames[|next.frames| - 1].which == ProgressList && OnlyUsers(next.progress)
    ensures next.Room() < m.Room() && Apart(m, next) && m.Loop() == next.Loop()
  {
    var o := m.progress.Finish();
    next := m.Popped().Enter(ProgressList, o.list, o.fire.value);
    assert m.Loop() == m.Left() == next.Loop();
    hide Machine.Valid, Machine.Loop, Machine.Left, Loops, CallsOf;
  }

  lemma ApartTwice(m: Machine, n: Machine, r: Machine)
    requires Apart(m, n) && Apart(n, r)
    ensures Apart(m, r)
  {
    hide CallsOf;
  }

  lemma ProgressCalls(m: Machine)
    requires m.Valid() && m.frames != [] && m.frames[|m.frames| - 1].which == ProgressList && OnlyUsers(m.progress) && m.progress.HasNext()
    ensures Apart(m, m.Loop())
  {
    var c, f := m.progress, m.frames[|m.frames| - 1];
    var id := c.list.value[c.firingIndex].id;
    CallsUser(m);
    CallsPush(m.log, Call(ProgressList, id, f.args), DoneList);
    CallsPush(m.log, Call(ProgressList, id, f.args), FailList);
    hide Machine.Valid, Machine.Loop, Loops, CallsOf;
  }

  lemma ProgressActs(m: Machine, o: Outcome)
    requires m.Valid() && o.list.Valid() && (o.fire.Some? ==> !m.progress.firing && o.list.firing) && (o.fire.None? ==> o.list.firing == m.progress.firing)
    requires OnlyUsers(o.list)
    ensures Apart(m, m.Act(ProgressList, o))
  {
    if o.fire.Some? {
      ProgressLoop(m.Enter(ProgressList, o.list, o.fire.value));
    }
  }

  /** Such a step keeps whatever holds of the settling lists. */
  lemma ApartKeeps(m: Machine, r: Machine, doneIds: seq<nat>, failIds: seq<nat>, settled: Option<Frame>)
    requires Inv(m, doneIds, failIds, settled) && r.Valid() && Apart(m, r)
    ensures Inv(r, doneIds, failIds, settled)
  {
    if settled.Some? {
      var w, a, ids := settled.value.which, settled.value.args, if settled.value.which == DoneList then doneIds else failIds;
      assert m.Of(w) == r.Of(w) && Serving(m, w, a, ids);
      assert Serving(r, w, a, ids);
    }
  }

  // ---------------------------------------------------------------- every step keeps it

  ghost predicate Kept(m: Machine, op: Op, doneIds: seq<nat>, failIds: seq<nat>, settled: Option<Frame>)
    requires m.Valid()
  {
    Inv(Step(m, op), doneIds + NewIds(op, DoneList), failIds + NewIds(op, FailList), Later(settled, op))
  }

  function NewIds(op: Op, w: Which): seq<nat> {
    if op.Add? && op.which == w then op.ids else []
  }

  function Later(settled: Option<Frame>, op: Op): Option<Frame> {
    if settled.Some? then settled
    else match op
      case Resolve(a) => Some(Frame(DoneList, a))
      case Reject(a) => Some(Frame(FailList, a))
      case _ => None
  }

  lemma StepKeeps(m: Machine, op: Op, doneIds: seq<nat>, failIds: seq<nat>, settled: Option<Frame>)
    requires Inv(m, doneIds, failIds, settled)
    ensures Kept(m, op, doneIds, failIds, settled)
  {
    assert m.Valid();
    assert doneIds + [] == doneIds && failIds + [] == failIds;
    hide *;
    match op
    case Add(w, ids) =>
      if w == ProgressList { AddProgress(m, ids, doneIds, failIds, settled); }
      else if settled.None? { AddPending(m, w, ids, doneIds, failIds); }
      else { AddSettled(m, w, ids, doneIds, failIds, settled.value); }
    case Resolve(a) => Settles(m, DoneList, a, doneIds, failIds, settled);
    case Reject(a) => Settles(m, FailList, a, doneIds, failIds, settled);
    case Notify(a) => Notifies(m, a, doneIds, failIds, settled);
    case Return => Returns(m, doneIds, failIds, settled);
  }

  lemma AddProgress(m: Machine, ids: seq<nat>, doneIds: seq<nat>, failIds: seq<nat>, settled: Option<Frame>)
    requires Inv(m, doneIds, failIds, settled)
    ensures m.Valid() && Kept(m, Add(ProgressList, ids), doneIds, failIds, settled)
  {
    var o := m.progress.Add(Users(ids));
    assert OnlyUsers(o.list) by { hide Serving, Untouched, Loops; }
    ProgressKeeps(m, o, doneIds, failIds, settled);
    assert doneIds + [] == doneIds && failIds + [] == failIds;
    hide Inv, Machine.Valid, Machine.Act;
  }

  lemma ProgressKeeps(m: Machine, o: Outcome, doneIds: seq<nat>, failIds: seq<nat>, settled: Option<Frame>)
    requires Inv(m, doneIds, failIds, settled) && OnlyUsers(o.list) && m.Valid()
    requires o.list.Valid() && (o.fire.Some? ==> !m.progress.firing && o.list.firing) && (o.fire.None? ==> o.list.firing == m.progress.firing)
    ensures Inv(m.Act(ProgressList, o), doneIds, failIds, settled)
  {
    var r := m.Act(ProgressList, o);
    ProgressActs(m, o);
    hide *;
    ApartKeeps(m, r, doneIds, failIds, settled);
  }

  lemma Notifies(m: Machine, a: Args, doneIds: seq<nat>, failIds: seq<nat>, settled: Option<Frame>)
    requires Inv(m, doneIds, failIds, settled)
    ensures m.Valid() && Kept(m, Notify(a), doneIds, failIds, settled)
  {
    var o := m.progress.FireWith(a);
    assert OnlyUsers(o.list) by { hide Serving, Untouched, Loops; }
    ProgressKeeps(m, o, doneIds, failIds, settled);
    assert doneIds + [] == doneIds && failIds + [] == failIds;
    hide Inv, Machine.Valid, Machine.Act;
  }

  lemma AddPending(m: Machine, w: Which, ids: seq<nat>, doneIds: seq<nat>, failIds: seq<nat>)
    requires Inv(m, doneIds, failIds, None) && w != ProgressList
    ensures m.Valid() && Kept(m, Add(w, ids), doneIds, failIds, None)
  {
    var had := if w == DoneList then doneIds else failIds;
    assert (Own(w) + Users(had)) + Users(ids) == Own(w) + Users(had + ids);
    assert doneIds + [] == doneIds && failIds + [] == failIds;
  }

  lemma AddSettled(m: Machine, w: Which, ids: seq<nat>, doneIds: seq<nat>, failIds: seq<nat>, f: Frame)
    requires Inv(m, doneIds, failIds, Some(f)) && w != ProgressList
    ensures m.Valid() && Kept(m, Add(w, ids), doneIds, failIds, Some(f))
  {
    assert doneIds + [] == doneIds && failIds + [] == failIds;
    if w == f.which {
      AddServes(m, w, f.args, if w == DoneList then doneIds else failIds, ids);
    } else {
      assert m.Act(w, m.Of(w).Add(Users(ids))) == m;
    }
  }

  lemma Settles(m: Machine, w: Which, a: Args, doneIds: seq<nat>, failIds: seq<nat>, settled: Option<Frame>)
    requires Inv(m, doneIds, failIds, settled) && w != ProgressList
    ensures m.Valid() && Kept(m, if w == DoneList then Resolve(a) else Reject(a), doneIds, failIds, settled)
  {
    assert doneIds + [] == doneIds && failIds + [] == failIds;
    hide *;
    if settled.None? {
      SettlesFirst(m, w, a, doneIds, failIds);
    } else {
      SettlesAgain(m, w, a, doneIds, failIds, settled.value);
    }
  }

  lemma SettlesFirst(m: Machine, w: Which, a: Args, doneIds: seq<nat>, failIds: seq<nat>)
    requires Inv(m, doneIds, failIds, None) && w != ProgressList
    ensures m.Valid() && Kept(m, if w == DoneList then Resolve(a) else Reject(a), doneIds, failIds, None)
  {
    var op := if w == DoneList then Resolve(a) else Reject(a);
    FirstMet(m, w, doneIds, failIds);
    assert Step(m, op) == m.Act(w, m.Of(w).FireWith(a));
    hide *;
    SettleServes(m, w, a, if w == DoneList then doneIds else failIds, if w == DoneList then failIds else doneIds);
    SettledInv(m, op, w, a, doneIds, failIds);
  }

  lemma FirstMet(m: Machine, w: Which, doneIds: seq<nat>, failIds: seq<nat>)
    requires Inv(m, doneIds, failIds, None) && w != ProgressList
    ensures m.Valid() && OnlyUsers(m.progress) && m.Of(w).list.Some?
    ensures Untouched(m.Of(w), Own(w), if w == DoneList then doneIds else failIds)
    ensures Untouched(m.Of(Other(w)), Own(Other(w)), if w == DoneList then failIds else doneIds)
    ensures CallsOf(m.log, w) == [] && CallsOf(m.log, Other(w)) == []
  {
    hide Loops, Machine.Valid;
  }

  lemma SettledInv(m: Machine, op: Op, w: Which, a: Args, doneIds: seq<nat>, failIds: seq<nat>)
    requires m.Valid() && w != ProgressList && op == (if w == DoneList then Resolve(a) else Reject(a))
    requires JustSettled(Step(m, op), w, a, if w == DoneList then doneIds else failIds)
    ensures Kept(m, op, doneIds, failIds, None)
  {
    assert doneIds + [] == doneIds && failIds + [] == failIds;
    hide Serving, Step, Loops, CallsOf;
  }

  /** Whoever came first has disabled the other list, and a `once` list fires once. */
  lemma SettlesAgain(m: Machine, w: Which, a: Args, doneIds: seq<nat>, failIds: seq<nat>, f: Frame)
    requires Inv(m, doneIds, failIds, Some(f)) && w != ProgressList
    ensures m.Valid() && Kept(m, if w == DoneList then Resolve(a) else Reject(a), doneIds, failIds, Some(f))
  {
    assert doneIds + [] == doneIds && failIds + [] == failIds;
    assert m.Of(w).FireWith(a) == Outcome(m.Of(w), None) by { hide Inside, Machine.Valid; }
    hide Serving, Machine.Loop, Loops;
    assert m.Act(w, m.Of(w).FireWith(a)) == m;
  }

  lemma Returns(m: Machine, doneIds: seq<nat>, failIds: seq<nat>, settled: Option<Frame>)
    requires Inv(m, doneIds, failIds, settled)
    ensures m.Valid() && Kept(m, Return, doneIds, failIds, settled)
  {
    assert doneIds + [] == doneIds && failIds + [] == failIds;
    if m.frames != [] {
      var w := m.frames[|m.frames| - 1].which;
      if w == ProgressList {
        ReturnsProgress(m, doneIds, failIds, settled);
      } else {
        ReturnsSettled(m, w, doneIds, failIds, settled);
      }
      hide Inv, Machine.Valid, Machine.Loop, Machine.Advanced;
    }
  }

  lemma ReturnsProgress(m: Machine, doneIds: seq<nat>, failIds: seq<nat>, settled: Option<Frame>)
    requires Inv(m, doneIds, failIds, settled) && m.frames != [] && m.frames[|m.frames| - 1].which == ProgressList && m.Valid()
    ensures Inv(m.Advanced().Loop(), doneIds, failIds, settled)
  {
    var n := m.Advanced();
    assert Apart(m, n) && OnlyUsers(n.progress) by { hide Serving, Untouched, Loops, Machine.Valid; }
    ProgressLoop(n);
    hide *;
    ApartKeeps(m, n, doneIds, failIds, settled);
    ApartKeeps(n, n.Loop(), doneIds, failIds, settled);
  }

  lemma ReturnsSettled(m: Machine, w: Which, doneIds: seq<nat>, failIds: seq<nat>, settled: Option<Frame>)
    requires Inv(m, doneIds, failIds, settled) && m.frames != [] && m.frames[|m.frames| - 1].which == w != ProgressList && m.Valid()
    ensures Inv(m.Advanced().Loop(), doneIds, failIds, settled)
  {
    assert Loops(m.frames, w) >= 1 && m.Of(w).firing;
    ReturnServes(m, w, settled.value.args, if w == DoneList then doneIds else failIds);
    hide Serving, Machine.Loop, Machine.Advanced, Loops;
  }

  lemma {:induction false} RunKeeps(ops: seq<Op>)
    ensures Inv(Run(ops), Added(ops, DoneList), Added(ops, FailList), Settled(ops))
  {
    if ops == [] {
      assert Own(DoneList) + Users([]) == [] + Own(DoneList) && Own(FailList) + Users([]) == [] + Own(FailList);
    } else {
      var before, op := ops[..|ops| - 1], ops[|ops| - 1];
      RunKeeps(before);
      StepKeeps(Run(before), op, Added(before, DoneList), Added(before, FailList), Settled(before));
    }
  }

  // ---------------------------------------------------------------- notifications

  /** The arguments of the notifications before the settlement. */
  ghost function Notified(ops: seq<Op>): seq<Args> {
    if ops == [] then []
    else
      var before, op := ops[..|ops| - 1], ops[|ops| - 1];
      Notified(before) + if op.Notify? && Settled(before).None? then [op.args] else []
  }

  /** How many progress callbacks there were at each of them. */
  ghost function Known(ops: seq<Op>): seq<nat> {
    if ops == [] then []
    else
      var before, op := ops[..|ops| - 1], ops[|ops| - 1];
      Known(before) + if op.Notify? && Settled(before).None? then [|Added(before, ProgressList)|] else []
  }

  /** The first `cuts[0]` of `ids` called with `args[0]`, then the first `cuts[1]` with `args[1]`, and so on. */
  ghost function Rounds(ids: seq<nat>, args: seq<Args>, cuts: seq<nat>): seq<Call>
    requires |cuts| == |args| && forall k :: 0 <= k < |cuts| ==> cuts[k] <= |ids|
  {
    if args == [] then []
    else Rounds(ids, args[..|args| - 1], cuts[..|cuts| - 1]) + Served(ProgressList, ids[..cuts[|cuts| - 1]], args[|args| - 1])
  }

  lemma {:induction false} RoundsOfMore(ids: seq<nat>, more: seq<nat>, args: seq<Args>, cuts: seq<nat>)
    requires |cuts| == |args| && forall k :: 0 <= k < |cuts| ==> cuts[k] <= |ids|
    ensures Rounds(ids + more, args, cuts) == Rounds(ids, args, cuts)
  {
    if args != [] {
      RoundsOfMore(ids, more, args[..|args| - 1], cuts[..|cuts| - 1]);
      assert (ids + more)[..cuts[|cuts| - 1]] == ids[..cuts[|cuts| - 1]];
    }
  }

  /** One callback more in the last round. */
  lemma RoundsGoOn(ids: seq<nat>, args: seq<Args>, cuts: seq<nat>, i: nat)
    requires |cuts| == |args| && args != [] && (forall k :: 0 <= k < |cuts| ==> cuts[k] <= |ids|) && cuts[|cuts| - 1] == i < |ids|
    ensures Rounds(ids, args, cuts[|cuts| - 1 := i + 1]) == Rounds(ids, args, cuts) + [Call(ProgressList, ids[i], args[|args| - 1])]
  {
    var n := |cuts| - 1;
    assert cuts[n := i + 1][..n] == cuts[..n];
    assert Served(ProgressList, ids[..i + 1], args[n]) == Served(ProgressList, ids[..i], args[n]) + [Call(ProgressList, ids[i], args[n])];
  }

  lemma RoundsStart(ids: seq<nat>, args: seq<Args>, cuts: seq<nat>, a: Args)
    requires |cuts| == |args| && forall k :: 0 <= k < |cuts| ==> cuts[k] <= |ids|
    ensures Rounds(ids, args + [a], cuts + [0]) == Rounds(ids, args, cuts)
  {
    assert (args + [a])[..|args|] == args && (cuts + [0])[..|cuts|] == cuts && ids[..0] == [];
    assert Served(ProgressList, [], a) == [];
  }

  /** What is known of the notifications: `args` are those whose round has begun, `cuts` says how many
      callbacks each round has called. */
  datatype Story = Story(ids: seq<nat>, notified: seq<Args>, known: seq<nat>, settled: bool, args: seq<Args>, cuts: seq<nat>)
  {
    /** Every round but the last has called all callbacks there were at its notification. */
    ghost predicate Sound() {
      && |args| == |cuts| <= |notified| == |known| && args == notified[..|args|]
      && (forall k :: 0 <= k < |cuts| ==> cuts[k] <= |ids|)
      && (forall k :: 0 <= k < |known| ==> known[k] <= |ids|)
      && (forall k :: 0 <= k < |cuts| - 1 ==> known[k] <= cuts[k])
    }

    ghost function Last(): Option<Args> {
      if args == [] then None else Some(args[|args| - 1])
    }

    /** How far the last round has come. */
    ghost function Reached(): nat
      requires |args| == |cuts|
    {
      if cuts == [] then 0 else cuts[|cuts| - 1]
    }
  }

  /** The log, the list and its memory, the frames and the waiting notifications fit the story. */
  ghost predicate Tells(m: Machine, t: Story) {
    var c := m.progress;
    && t.Sound() && !c.once && CallsOf(m.log, ProgressList) == Rounds(t.ids, t.args, t.cuts)
    && (t.args != [] ==> AllArgs(m.frames, ProgressList, t.args[|t.args| - 1]))
    && c.memory == t.Last()
    && (c.list.Some? ==> c.list == Some(Users(t.ids)))
    && (c.list.None? ==> t.settled && t.args == [] && !c.firing)
    && (t.args == [] ==> !c.firing)
    && c.stack == (if t.settled then None else Some(t.notified[|t.args|..]))
  }

  /** The same between two operations. */
  ghost predicate PInv(m: Machine, t: Story) {
    var c := m.progress;
    && m.Valid() && Tells(m, t)
    && (c.firing ==> c.firingLength == |t.ids| && c.firingIndex < |t.ids| && t.Reached() == c.firingIndex + 1)
    && (!c.firing ==> (t.args != [] ==> t.Reached() == |t.ids|) && (!t.settled ==> t.args == t.notified))
  }

  /** The same inside the loop of the last round, before it looks for the next callback. */
  ghost predicate PLook(m: Machine, t: Story) {
    var c := m.progress;
    && m.Valid() && Tells(m, t) && t.args != [] && m.frames != []
    && m.frames[|m.frames| - 1] == Frame(ProgressList, t.args[|t.args| - 1])
    && c.firing && c.list.Some? && c.firingLength == |t.ids| && t.Reached() == c.firingIndex
  }

  lemma {:induction false} LoopTells(m: Machine, t: Story) returns (u: Story)
    requires PLook(m, t)
    ensures PInv(m.Loop(), u) && u.ids == t.ids && u.notified == t.notified && u.known == t.known && u.settled == t.settled
    decreases m.Room()
  {
    if m.progress.HasNext() {
      u := CallTells(m, t);
    } else if m.progress.stack.Some? && m.progress.stack.value != [] {
      var next, later := RoundTells(m, t);
      u := LoopTells(next, later);
    } else {
      EndTells(m, t);
      u := t;
    }
  }

  /** The next callback of the round. */
  lemma CallTells(m: Machine, t: Story) returns (u: Story)
    requires PLook(m, t) && m.progress.HasNext()
    ensures PInv(m.Loop(), u) && u.ids == t.ids && u.notified == t.notified && u.known == t.known && u.settled == t.settled
  {
    var c, n := m.progress, |t.cuts| - 1;
    var i := c.firingIndex;
    CallsUser(m);
    CallsPush(m.log, Call(ProgressList, t.ids[i], t.args[n]), ProgressList);
    RoundsGoOn(t.ids, t.args, t.cuts, i);
    u := t.(cuts := t.cuts[n := i + 1]);
    hide Machine.Valid, Machine.Loop, Rounds, CallsOf, Loops;
  }

  /** The end of a round with a notification waiting: the next round. */
  lemma RoundTells(m: Machine, t: Story) returns (next: Machine, u: Story)
    requires PLook(m, t) && !m.progress.HasNext() && m.progress.stack.Some? && m.progress.stack.value != []
    ensures PLook(next, u) && u.ids == t.ids && u.notified == t.notified && u.known == t.known && u.settled == t.settled
    ensures next.Room() < m.Room() && m.Loop() == next.Loop()
  {
    var a := m.progress.stack.value[0];
    next := Restarted(m, a);
    u := t.(args := t.args + [a], cuts := t.cuts + [0]);
    RoundsStart(t.ids, t.args, t.cuts, a);
    assert t.notified[|t.args|..][1..] == t.notified[|t.args| + 1..];
    OtherFrames(m.frames, a);
    hide Machine.Valid, Rounds, CallsOf, Loops;
    NextSound(t, a);
    LooksAgain(m, next, u, a);
  }

  lemma NextSound(t: Story, a: Args)
    requires t.Sound() && t.Reached() == |t.ids| && |t.args| < |t.notified| && t.notified[|t.args|] == a
    ensures t.(args := t.args + [a], cuts := t.cuts + [0]).Sound()
  {}

  /** The machine after a waiting notification has started the next round. */
  lemma Restarted(m: Machine, a: Args) returns (next: Machine)
    requires m.Valid() && m.frames != [] && m.frames[|m.frames| - 1].which == ProgressList
    requires var c := m.progress; !c.HasNext() && !c.once && c.list.Some? && c.stack.Some? && c.stack.value != [] && c.stack.value[0] == a
    ensures next.Valid() && next.frames == m.frames[..|m.frames| - 1] + [Frame(ProgressList, a)] && next.frames != []
    ensures m.Loop() == next.Loop() && next.Room() < m.Room() && next.log == m.log
    ensures next.progress == m.progress.(stack := Some(m.progress.stack.value[1..]), memory := Some(a), firing := true, firingIndex := 0, firingLength := |m.progress.list.value|)
  {
    var o := m.progress.Finish();
    next := m.Popped().Enter(ProgressList, o.list, a);
    assert m.Loop() == m.Left() == next.Loop();
  }

  /** A loop of the last round that the story tells. */
  lemma LooksAgain(m: Machine, next: Machine, u: Story, a: Args)
    requires next.Valid() && u.Sound() && u.Last() == Some(a) && next.log == m.log
    requires CallsOf(m.log, ProgressList) == Rounds(u.ids, u.args, u.cuts)
    requires next.frames != [] && next.frames[|next.frames| - 1] == Frame(ProgressList, a) && AllArgs(next.frames, ProgressList, a)
    requires next.progress == Callbacks(false, Some(Users(u.ids)), if u.settled then None else Some(u.notified[|u.args|..]), Some(a), true, |u.ids|, u.Reached())
    ensures PLook(next, u)
  {
    hide Machine.Valid, Rounds, CallsOf, AllArgs;
  }

  /** One loop over the progress list is the innermost one: the others are of other lists. */
  lemma OtherFrames(frames: seq<Frame>, a: Args)
    requires frames != [] && frames[|frames| - 1].which == ProgressList && Loops(frames, ProgressList) == 1
    ensures AllArgs(frames[..|frames| - 1] + [Frame(ProgressList, a)], ProgressList, a)
  {
    NoFrames(frames[..|frames| - 1], ProgressList, a);
  }

  /** The end of the last round. */
  lemma EndTells(m: Machine, t: Story)
    requires PLook(m, t) && !m.progress.HasNext() && !(m.progress.stack.Some? && m.progress.stack.value != [])
    ensures PInv(m.Loop(), t)
  {
    assert m.Loop() == m.Left() == m.Popped().With(ProgressList, m.progress.Finish().list);
    hide Machine.Loop, Machine.Left, Rounds, CallsOf, Loops;
  }

  lemma PAdd(m: Machine, more: seq<nat>, t: Story) returns (u: Story)
    requires PInv(m, t)
    ensures PInv(Step(m, Add(ProgressList, more)), u)
    ensures u.ids == t.ids + more && u.notified == t.notified && u.known == t.known && u.settled == t.settled
  {
    var c := m.progress;
    if c.list.Some? && !c.firing && c.memory.Some? {
      var next, longer := AddRestarts(m, more, t);
      hide *;
      u := LoopTells(next, longer);
    } else {
      u := t.(ids := t.ids + more);
      RoundsOfMore(t.ids, more, t.args, t.cuts);
      assert Users(t.ids) + Users(more) == Users(t.ids + more);
      hide Rounds, CallsOf, Loops;
    }
  }

  /** A callback added after a round gets its arguments at once. */
  lemma AddRestarts(m: Machine, more: seq<nat>, t: Story) returns (next: Machine, u: Story)
    requires PInv(m, t) && m.progress.list.Some? && !m.progress.firing && m.progress.memory.Some?
    ensures PLook(next, u) && Step(m, Add(ProgressList, more)) == next.Loop()
    ensures u.ids == t.ids + more && u.notified == t.notified && u.known == t.known && u.settled == t.settled
  {
    u := t.(ids := t.ids + more);
    var a := m.progress.memory.value;
    hide PInv, Rounds, CallsOf, Loops, Machine.Valid, Step, AllArgs, Story.Sound;
    Quiet(m, t);
    assert Users(t.ids) + Users(more) == Users(u.ids);
    next := AddedLate(m, more);
    IdleFrames(m, ProgressList, a);
    MoreSound(t, more);
    LooksAgain(m, next, u, a);
  }

  lemma AddedLate(m: Machine, more: seq<nat>) returns (next: Machine)
    requires m.Valid() && m.progress.list.Some? && !m.progress.firing && m.progress.memory.Some?
    ensures next.Valid() && next.frames == m.frames + [Frame(ProgressList, m.progress.memory.value)] && next.frames != []
    ensures Step(m, Add(ProgressList, more)) == next.Loop() && next.log == m.log
    ensures var longer := m.progress.list.value + Users(more);
            next.progress == m.progress.(list := Some(longer), firing := true, firingIndex := |m.progress.list.value|, firingLength := |longer|)
  {
    var c := m.progress;
    next := m.Enter(ProgressList, c.(list := Some(c.list.value + Users(more))).Begin(c.memory.value, |c.list.value|), c.memory.value);
    assert Step(m, Add(ProgressList, more)) == next.Loop();
  }

  lemma PNotify(m: Machine, a: Args, t: Story) returns (u: Story)
    requires PInv(m, t)
    ensures PInv(Step(m, Notify(a)), u) && u.ids == t.ids && u.settled == t.settled
    ensures u.notified == t.notified + (if t.settled then [] else [a]) && u.known == t.known + (if t.settled then [] else [|t.ids|])
  {
    if t.settled {
      u := t;
      assert Step(m, Notify(a)) == m;
    } else if m.progress.firing {
      u := t.(notified := t.notified + [a], known := t.known + [|t.ids|]);
      assert u.notified[|t.args|..] == t.notified[|t.args|..] + [a];
      hide Rounds, CallsOf, Loops;
    } else {
      var next, begun := NotifyStarts(m, a, t);
      hide *;
      u := LoopTells(next, begun);
    }
  }

  /** A notification that finds no round running begins one. */
  lemma NotifyStarts(m: Machine, a: Args, t: Story) returns (next: Machine, u: Story)
    requires PInv(m, t) && !t.settled && !m.progress.firing
    ensures PLook(next, u) && Step(m, Notify(a)) == next.Loop()
    ensures u.ids == t.ids && u.settled == t.settled && u.notified == t.notified + [a] && u.known == t.known + [|t.ids|]
  {
    u := t.(notified := t.notified + [a], known := t.known + [|t.ids|], args := t.args + [a], cuts := t.cuts + [0]);
    hide PInv, Rounds, CallsOf, Loops, Machine.Valid, Step, AllArgs, Story.Sound;
    Quiet(m, t);
    assert u.notified[|u.args|..] == [] == t.notified[|t.args|..];
    next := Started(m, a);
    IdleFrames(m, ProgressList, a);
    StartSound(t, a);
    LooksAgain(m, next, u, a);
  }

  /** No round is running. */
  lemma Quiet(m: Machine, t: Story)
    requires PInv(m, t) && !m.progress.firing
    ensures m.Valid() && t.Sound() && !m.progress.once && m.progress.memory == t.Last()
    ensures CallsOf(m.log, ProgressList) == Rounds(t.ids, t.args, t.cuts) && (t.args != [] ==> t.Reached() == |t.ids|)
    ensures m.progress.list.Some? ==> m.progress.list == Some(Users(t.ids))
    ensures !t.settled ==> t.args == t.notified && m.progress.list.Some? && m.progress.stack == Some([])
    ensures m.progress.stack == if t.settled then None else Some(t.notified[|t.args|..])
  {
    hide Rounds, CallsOf, Loops, Machine.Valid, Story.Sound;
    assert !t.settled ==> t.notified[|t.args|..] == [];
  }

  lemma Started(m: Machine, a: Args) returns (next: Machine)
    requires m.Valid() && m.progress.list.Some? && m.progress.stack.Some? && !m.progress.firing && !m.progress.once
    ensures next.Valid() && next.frames == m.frames + [Frame(ProgressList, a)] && next.frames != []
    ensures Step(m, Notify(a)) == next.Loop() && next.log == m.log
    ensures next.progress == m.progress.(memory := Some(a), firing := true, firingIndex := 0, firingLength := |m.progress.list.value|)
  {
    next := m.Enter(ProgressList, m.progress.Begin(a, 0), a);
    assert Step(m, Notify(a)) == next.Loop();
  }

  lemma StartSound(t: Story, a: Args)
    requires t.Sound() && t.args == t.notified && (t.args != [] ==> t.Reached() == |t.ids|)
    ensures var u := t.(notified := t.notified + [a], known := t.known + [|t.ids|], args := t.args + [a], cuts := t.cuts + [0]);
            u.Sound() && Rounds(u.ids, u.args, u.cuts) == Rounds(t.ids, t.args, t.cuts) && u.Reached() == 0 && u.Last() == Some(a)
  {
    RoundsStart(t.ids, t.args, t.cuts, a);
    hide Rounds;
  }

  lemma MoreSound(t: Story, more: seq<nat>)
    requires t.Sound()
    ensures var u := t.(ids := t.ids + more);
            u.Sound() && Rounds(u.ids, u.args, u.cuts) == Rounds(t.ids, t.args, t.cuts) && u.Reached() == t.Reached() && u.Last() == t.Last()
  {
    RoundsOfMore(t.ids, more, t.args, t.cuts);
    hide Rounds;
  }

  lemma PReturn(m: Machine, t: Story) returns (u: Story)
    requires PInv(m, t) && m.frames != [] && m.frames[|m.frames| - 1].which == ProgressList
    ensures PInv(Step(m, Return), u) && u.ids == t.ids && u.notified == t.notified && u.known == t.known && u.settled == t.settled
  {
    assert Loops(m.frames, ProgressList) >= 1 && m.progress.firing;
    var next := m.Advanced();
    assert Step(m, Return) == next.Loop();
    hide Machine.Loop, Rounds, CallsOf, Loops;
    u := LoopTells(next, t);
  }

  // ---------------------------------------------------------------- settlements keep out of it, but for the lock

  /** Nothing about notifications differs, but that `locked` says whether they have been locked. */
  ghost predicate Aside(m: Machine, r: Machine, locked: bool)
    requires m.Valid()
  {
    && r.progress == (if locked then m.progress.Lock() else m.progress)
    && CallsOf(r.log, ProgressList) == CallsOf(m.log, ProgressList)
    && forall f :: f in r.frames && f.which == ProgressList ==> f in m.frames
  }

  /** A loop over a settling list of which only users' callbacks are left. */
  lemma UsersAside(m: Machine)
    requires m.Valid() && m.frames != []
    requires var f := m.frames[|m.frames| - 1];
             var c := m.Of(f.which);
             f.which != ProgressList && c.once && c.list.Some? && forall i :: c.firingIndex <= i < |c.list.value| ==> c.list.value[i].User?
    ensures Aside(m, m.Loop(), false)
  {
    var f := m.frames[|m.frames| - 1];
    if m.Of(f.which).HasNext() {
      CallsUser(m);
      CallsPush(m.log, Call(f.which, m.Of(f.which).list.value[m.Of(f.which).firingIndex].id, f.args), ProgressList);
    } else {
      EndsOnce(m);
    }
    hide Machine.Loop, CallsOf, Loops;
  }

  lemma AsideTwice(m: Machine, n: Machine, r: Machine, locked: bool)
    requires m.Valid() && n.Valid() && Aside(m, n, locked) && Aside(n, r, false)
    ensures Aside(m, r, locked)
  {
    hide CallsOf, Machine.Valid;
  }

  /** The first settlement locks the notifications. */
  lemma SettleAside(m: Machine, w: Which, a: Args, ids: seq<nat>, otherIds: seq<nat>)
    requires m.Valid() && OnlyUsers(m.progress) && w != ProgressList
    requires Untouched(m.Of(w), Own(w), ids) && Untouched(m.Of(Other(w)), Own(Other(w)), otherIds)
    requires CallsOf(m.log, w) == [] && CallsOf(m.log, Other(w)) == []
    ensures Aside(m, m.Act(w, m.Of(w).FireWith(a)), true)
  {
    hide *;
    var m1 := OpeningStart(m, w, a, ids, otherIds);
    var m2 := OpeningStep(m1, w, a, ids, 0);
    var m3 := OpeningStep(m2, w, a, ids, 1);
    var m4 := OpeningStep(m3, w, a, ids, 2);
    StepLocks(m1, m2, w, a, ids, 0);
    StepLocks(m2, m3, w, a, ids, 1);
    StepLocks(m3, m4, w, a, ids, 2);
    OpenedAside(m, m4, w, a, ids);
  }

  lemma OpenedAside(m: Machine, m4: Machine, w: Which, a: Args, ids: seq<nat>)
    requires m.Valid() && w != ProgressList && Opening(m4, w, a, ids, 3)
    requires m4.log == m.log && m4.frames == m.frames + [Frame(w, a)] && m4.progress == m.progress.Lock()
    ensures m4.Valid() && m4.frames != [] && Aside(m, m4.Loop(), true)
  {
    var c := m4.Of(w);
    assert c.list == Some(Own(w) + Users(ids)) && c.firingIndex == 3 && c.once;
    hide CallsOf, Machine.Loop, Loops, AllArgs;
    UsersAside(m4);
    AsideTwice(m, m4, m4.Loop(), true);
  }

  /** What the story needs of a step aside. */
  lemma PAside(m: Machine, r: Machine, t: Story, locked: bool)
    requires PInv(m, t) && r.Valid() && Aside(m, r, locked) && (locked ==> !t.settled)
    ensures PInv(r, t.(settled := t.settled || locked))
  {
    hide Rounds, CallsOf, Loops;
    var u := t.(settled := t.settled || locked);
    assert t.Sound() && u.Sound();
  }

  /** Every operation on a settling list leaves the notifications aside; the first settlement locks
      them. */
  lemma StepAside(m: Machine, op: Op, doneIds: seq<nat>, failIds: seq<nat>, settled: Option<Frame>)
    requires Inv(m, doneIds, failIds, settled) && !op.Notify? && (op.Add? ==> op.which != ProgressList)
    requires op.Return? ==> m.frames == [] || m.frames[|m.frames| - 1].which != ProgressList
    ensures m.Valid() && Aside(m, Step(m, op), settled.None? && (op.Resolve? || op.Reject?))
  {
    assert m.Valid();
    hide *;
    match op
    case Add(w, ids) => AddAside(m, w, ids, doneIds, failIds, settled);
    case Resolve(a) => SettlingAside(m, DoneList, a, doneIds, failIds, settled);
    case Reject(a) => SettlingAside(m, FailList, a, doneIds, failIds, settled);
    case Return => ReturnAside(m, doneIds, failIds, settled);
  }

  lemma AddAside(m: Machine, w: Which, ids: seq<nat>, doneIds: seq<nat>, failIds: seq<nat>, settled: Option<Frame>)
    requires Inv(m, doneIds, failIds, settled) && w != ProgressList
    ensures m.Valid() && Aside(m, Step(m, Add(w, ids)), false)
  {
    if settled.Some? && w == settled.value.which && !m.Of(w).firing {
      ServedLate(m, w, ids, settled.value.args);
    }
  }

  /** A callback added to the settled list. */
  lemma ServedLate(m: Machine, w: Which, ids: seq<nat>, a: Args)
    requires m.Valid() && w != ProgressList && !m.Of(w).firing && m.Of(w).once && m.Of(w).list == Some([]) && m.Of(w).memory == Some(a)
    ensures Aside(m, Step(m, Add(w, ids)), false)
  {
    var c := m.Of(w);
    var next := m.Enter(w, c.(list := Some(Users(ids))).Begin(a, 0), a);
    assert [] + Users(ids) == Users(ids);
    assert Step(m, Add(w, ids)) == next.Loop();
    hide Machine.Loop, CallsOf, Loops, Step, Machine.Act;
    UsersAside(next);
    AsideTwice(m, next, next.Loop(), false);
  }

  lemma SettlingAside(m: Machine, w: Which, a: Args, doneIds: seq<nat>, failIds: seq<nat>, settled: Option<Frame>)
    requires Inv(m, doneIds, failIds, settled) && w != ProgressList
    ensures m.Valid() && Aside(m, Step(m, if w == DoneList then Resolve(a) else Reject(a)), settled.None?)
  {
    if settled.None? {
      if w == DoneList { SettleAside(m, w, a, doneIds, failIds); } else { SettleAside(m, w, a, failIds, doneIds); }
    } else {
      assert m.Of(w).FireWith(a) == Outcome(m.Of(w), None) by { hide Inside, Machine.Valid; }
      hide Serving, Machine.Loop, Loops;
      assert m.Act(w, m.Of(w).FireWith(a)) == m;
    }
  }

  lemma ReturnAside(m: Machine, doneIds: seq<nat>, failIds: seq<nat>, settled: Option<Frame>)
    requires Inv(m, doneIds, failIds, settled) && (m.frames == [] || m.frames[|m.frames| - 1].which != ProgressList)
    ensures m.Valid() && Aside(m, Step(m, Return), false)
  {
    if m.frames != [] {
      var w := m.frames[|m.frames| - 1].which;
      assert Loops(m.frames, w) >= 1 && m.Of(w).firing;
      var next, c := m.Advanced(), m.Of(w);
      assert c.list.value[c.firingIndex + 1..] == Users((if w == DoneList then doneIds else failIds)[|if w == DoneList then doneIds else failIds| - LeftOver(c)..]);
      assert forall i :: c.firingIndex + 1 <= i < |c.list.value| ==> c.list.value[i] == c.list.value[c.firingIndex + 1..][i - c.firingIndex - 1];
      hide Machine.Loop, CallsOf, Loops, Serving, Inside;
      UsersAside(next);
      AsideTwice(m, next, next.Loop(), false);
    }
  }

  /** One operation, whatever it is. */
  lemma PStep(m: Machine, op: Op, doneIds: seq<nat>, failIds: seq<nat>, settled: Option<Frame>, t: Story) returns (u: Story)
    requires Inv(m, doneIds, failIds, settled) && PInv(m, t) && (t.settled <==> settled.Some?)
    ensures m.Valid() && PInv(Step(m, op), u) && (u.settled <==> Later(settled, op).Some?)
    ensures u.ids == t.ids + NewIds(op, ProgressList)
    ensures u.notified == t.notified + (if op.Notify? && settled.None? then [op.args] else [])
    ensures u.known == t.known + (if op.Notify? && settled.None? then [|t.ids|] else [])
  {
    assert m.Valid() && t.ids + [] == t.ids;
    hide Inv, PInv, Step, Machine.Valid;
    if op.Notify? {
      u := PNotify(m, op.args, t);
    } else if op.Add? && op.which == ProgressList {
      u := PAdd(m, op.ids, t);
    } else if op.Return? && m.frames != [] && m.frames[|m.frames| - 1].which == ProgressList {
      u := PReturn(m, t);
    } else {
      var locked := settled.None? && (op.Resolve? || op.Reject?);
      StepAside(m, op, doneIds, failIds, settled);
      PAside(m, Step(m, op), t, locked);
      u := t.(settled := t.settled || locked);
    }
  }

  lemma {:induction false} RunTells(ops: seq<Op>) returns (t: Story)
    ensures PInv(Run(ops), t) && (t.settled <==> Settled(ops).Some?)
    ensures t.ids == Added(ops, ProgressList) && t.notified == Notified(ops) && t.known == Known(ops)
  {
    if ops == [] {
      t := Story([], [], [], false, [], []);
    } else {
      var before, op := ops[..|ops| - 1], ops[|ops| - 1];
      RunKeeps(before);
      t := RunTells(before);
      t := PStep(Run(before), op, Added(before, DoneList), Added(before, FailList), Settled(before), t);
    }
  }

  // ---------------------------------------------------------------- what the documentation promises

  /** The state is that of the first `resolve` or `reject`, and "pending" before it. */
  lemma StateIsFirstSettlement(ops: seq<Op>)
    ensures Run(ops).status == if Settled(ops).None? then Pending else StatusOf(Settled(ops).value.which)
  {
    RunKeeps(ops);
  }

  /** So it changes at most once, whatever comes later. */
  lemma {:induction false} StateChangesOnce(ops: seq<Op>, more: seq<Op>)
    ensures Run(ops).status != Pending ==> Run(ops + more).status == Run(ops).status
    decreases |more|
  {
    hide Run;
    if more == [] {
      assert ops + more == ops;
    } else {
      var longer := ops + more[..|more| - 1];
      StateChangesOnce(ops, more[..|more| - 1]);
      assert (ops + more)[..|ops + more| - 1] == longer;
      StateIsFirstSettlement(longer);
      StateIsFirstSettlement(ops + more);
    }
  }

  /** Each callback handed to the winning list, before, during or after the settlement, is
      called once, in order, with the first settlement's arguments: all of them when no loop is
      running, and a prefix while one of them is being executed. */
  lemma CallbacksRunOnceInOrder(ops: seq<Op>, w: Which)
    requires w != ProgressList && Settled(ops).Some? && Settled(ops).value.which == w
    ensures var m, ids, a := Run(ops), Added(ops, w), Settled(ops).value.args;
            && CallsOf(m.log, w) <= Served(w, ids, a)
            && (!m.Of(w).firing ==> CallsOf(m.log, w) == Served(w, ids, a))
            && (m.Of(w).firing ==> Loops(m.frames, w) == 1)
  {
    RunKeeps(ops);
    hide Run, Added, Settled;
    var m, ids, a := Run(ops), Added(ops, w), Settled(ops).value.args;
    if m.Of(w).firing {
      var p := |ids| - LeftOver(m.Of(w));
      assert Served(w, ids[..p], a) == Served(w, ids, a)[..p];
    }
  }

  /** The losing list never calls anything, and neither list does before the settlement. */
  lemma LosersNeverRun(ops: seq<Op>, w: Which)
    requires w != ProgressList && (Settled(ops).Some? ==> Settled(ops).value.which != w)
    ensures CallsOf(Run(ops).log, w) == []
  {
    RunKeeps(ops);
  }

  /** Each notification before the settlement calls, in order and once, every progress callback
      there was at the time, and those added until the next one starts; the notifications follow one
      another, and none is lost as long as nothing is settled. */
  lemma NotificationsInOrder(ops: seq<Op>) returns (args: seq<Args>, cuts: seq<nat>)
    ensures var m, ids := Run(ops), Added(ops, ProgressList);
            && |args| == |cuts| && args <= Notified(ops) && |Known(ops)| == |Notified(ops)|
            && (forall k :: 0 <= k < |cuts| ==> cuts[k] <= |ids|)
            && CallsOf(m.log, ProgressList) == Rounds(ids, args, cuts)
            && (forall k :: 0 <= k < |cuts| - 1 ==> Known(ops)[k] <= cuts[k])
            && (!m.progress.firing ==> (args != [] ==> cuts[|cuts| - 1] == |ids|) && (Settled(ops).None? ==> args == Notified(ops)))
  {
    var t := RunTells(ops);
    args, cuts := t.args, t.cuts;
    hide Run, Rounds, CallsOf, Added, Notified, Known, Settled;
    assert t.Sound();
  }

  /** After the settlement a notification does nothing, whatever it finds. */
  lemma NotifiedInVain(ops: seq<Op>, a: Args)
    requires Settled(ops).Some?
    ensures Run(ops + [Notify(a)]) == Run(ops)
  {
    var t := RunTells(ops);
    assert (ops + [Notify(a)])[..|ops|] == ops;
    assert Run(ops + [Notify(a)]) == Step(Run(ops), Notify(a));
    hide *;
    LockedInVain(Run(ops), a, t);
  }

  lemma LockedInVain(m: Machine, a: Args, t: Story)
    requires PInv(m, t) && t.settled
    ensures m.Valid() && Step(m, Notify(a)) == m
  {
    hide Rounds, CallsOf, Loops;
  }

  /** Without a notification before the settlement no progress callback is ever called. */
  lemma NeverNotified(ops: seq<Op>)
    requires Notified(ops) == []
    ensures CallsOf(Run(ops).log, ProgressList) == []
  {
    var t := RunTells(ops);
  }
}
