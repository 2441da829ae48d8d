/** Instructions cannot tell how code is addressed: if two machines agree on data and their code
    pointers correspond, one instruction with corresponding operands keeps it so. */
module Relate {
  import opened Words
  import opened Isa
  import opened Machine

  predicate RelPtr<P, Q>(r: (P, Q) -> bool, a: Option<P>, b: Option<Q>) {
    match (a, b)
    case (None, None) => true
    case (Some(p), Some(q)) => r(p, q)
    case _ => false
  }

  ghost predicate RelCalls<P, Q>(r: (P, Q) -> bool, a: seq<Option<P>>, b: seq<Option<Q>>) {
    |a| == |b| && forall k :: 0 <= k < |a| ==> RelPtr(r, a[k], b[k])
  }

  ghost predicate RelHost<P, Q>(r: (P, Q) -> bool, a: seq<Host<P>>, b: seq<Host<Q>>) {
    |a| == |b| && forall k :: 0 <= k < |a| ==> r(a[k].resume, b[k].resume) && a[k].mod == b[k].mod
  }

  /** Same data, corresponding code pointers. */
  ghost predicate RelState<P, Q>(r: (P, Q) -> bool, s: State<P>, t: State<Q>) {
    && s.core == t.core && s.mod == t.mod
    && RelPtr(r, s.lr, t.lr) && RelCalls(r, s.calls, t.calls) && RelHost(r, s.host, t.host)
  }

  ghost predicate RelOutcome<P, Q>(r: (P, Q) -> bool, o: Outcome<P>, u: Outcome<Q>) {
    match (o, u)
    case (Running(p, s), Running(q, t)) => r(p, q) && RelState(r, s, t)
    case (Stopped(s), Stopped(t)) => RelState(r, s, t)
    case (Undefined, Undefined) => true
    case _ => false
  }

  predicate RelCallee<P, Q>(r: (P, Q) -> bool, a: Callee<P>, b: Callee<Q>) {
    match (a, b)
    case (Fail(e), Fail(e')) => e == e'
    case (Local(p), Local(q)) => r(p, q)
    case (Foreign(p, m), Foreign(q, m')) => r(p, q) && m == m'
    case (NoCode, NoCode) => true
    case _ => false
  }

  predicate RelAction<P, Q>(r: (P, Q) -> bool, a: Action<P>, b: Action<Q>) {
    match (a, b)
    case (Plain(i), Plain(i')) => i == i'
    case (Goto(op, p), Goto(op', q)) => op == op' && r(p, q)
    case (Invoke(c), Invoke(c')) => RelCallee(r, c, c')
    case (NoAction, NoAction) => true
    case _ => false
  }

  lemma PopRelated<P, Q>(r: (P, Q) -> bool, s: State<P>, t: State<Q>)
    requires RelState(r, s, t) && s.calls != []
    ensures t.calls != [] && RelState(r, PopLr(s), PopLr(t))
  {
  }

  lemma ExitRelated<P, Q>(r: (P, Q) -> bool, s: State<P>, t: State<Q>)
    requires RelState(r, s, t)
    ensures RelOutcome(r, Exit(s), Exit(t))
  {
    if s.host != [] && s.calls != [] {
      var h, g := s.host[|s.host| - 1], t.host[|t.host| - 1];
      PopRelated(r, s.(host := s.host[..|s.host| - 1], mod := h.mod),
                 t.(host := t.host[..|t.host| - 1], mod := g.mod));
    }
  }

  lemma ReturnRelated<P, Q>(r: (P, Q) -> bool, s: State<P>, t: State<Q>)
    requires RelState(r, s, t)
    ensures RelOutcome(r, Return(s), Return(t))
  {
    if s.lr.None? {
      ExitRelated(r, s, t);
    }
  }

  lemma ContinueRelated<P, Q>(
    r: (P, Q) -> bool, e: Effect, p: P, q: Q, s: State<P>, t: State<Q>)
    requires RelState(r, s, t) && r(p, q)
    ensures RelOutcome(r, Continue(e, p, s), Continue(e, q, t))
  {
    if e.Trap? {
      ExitRelated(r, s.(core := e.c), t.(core := e.c));
    }
  }

  lemma CallRelated<P, Q>(
    r: (P, Q) -> bool, lay: Layout, a: Callee<P>, b: Callee<Q>, p: P, q: Q, s: State<P>, t: State<Q>)
    requires RelState(r, s, t) && r(p, q) && RelCallee(r, a, b)
    ensures RelOutcome(r, Machine.Call(lay, a, p, s), Machine.Call(lay, b, q, t))
  {
    match a {
      case Fail(err) =>
        ExitRelated(r, s.(core := s.core.(err := err)), t.(core := t.core.(err := err)));
      case _ =>
    }
  }

  lemma FrameRelated<P, Q>(
    r: (P, Q) -> bool, lay: Layout, i: Instr, p: P, q: Q, s: State<P>, t: State<Q>)
    requires RelState(r, s, t) && r(p, q)
    ensures RelOutcome(r, Frame(lay, i, p, s), Frame(lay, i, q, t))
  {
    if s.calls != [] {
      PopRelated(r, s, t);
    }
    match i {
      case I0(Halt) => ExitRelated(r, s, t);
      case I0(Ret) => ReturnRelated(r, s, t);
      case I0(Restore) => if s.calls != [] { ReturnRelated(r, PopLr(s), PopLr(t)); }
      case I1(Enter, n) =>
        if n >= 0 {
          ContinueRelated(r, Machine.Alloc(n, s.core), p, q, PushLr(s), PushLr(t));
        }
      case I1(Leave, n) =>
        if s.calls != [] && n >= 0 {
          var c := Machine.Redux(n, s.core);
          ReturnRelated(r, PopLr(s).(core := c), PopLr(t).(core := c));
        }
      case I1(Remit, n) =>
        if n >= 0 {
          var c := Machine.Redux(n, s.core);
          ReturnRelated(r, s.(core := c), t.(core := c));
        }
      case _ =>
    }
  }

  /** One instruction with corresponding operands keeps the correspondence, in every outcome. */
  lemma PerformRelated<P, Q>(
    r: (P, Q) -> bool, lay: Layout, a: Action<P>, b: Action<Q>, p: P, q: Q, s: State<P>, t: State<Q>)
    requires RelState(r, s, t) && r(p, q) && RelAction(r, a, b)
    ensures RelOutcome(r, Perform(lay, a, p, s), Perform(lay, b, q, t))
  {
    match a {
      case Plain(i) =>
        if IsFrame(i) {
          FrameRelated(r, lay, i, p, q, s, t);
        } else {
          ContinueRelated(r, Data(lay, s.mod, i, s.core), p, q, s, t);
        }
      case Invoke(callee) => CallRelated(r, lay, callee, b.callee, p, q, s, t);
      case _ =>
    }
  }

  /** `step'` follows `step` wherever that is defined. */
  ghost predicate Follows<P(!new), Q(!new)>(
    r: (P, Q) -> bool, step: (P, State<P>) -> Outcome<P>, step': (Q, State<Q>) -> Outcome<Q>)
  {
    forall p, q, s, t :: r(p, q) && RelState(r, s, t) ==>
      step(p, s).Undefined? || RelOutcome(r, step(p, s), step'(q, t))
  }

  /** Lockstep: a machine that follows another on every step follows it on every run. */
  lemma {:induction false} RunRelated<P(!new), Q(!new)>(
    r: (P, Q) -> bool, step: (P, State<P>) -> Outcome<P>, step': (Q, State<Q>) -> Outcome<Q>,
    n: nat, o: Outcome<P>, u: Outcome<Q>)
    requires Follows(r, step, step') && RelOutcome(r, o, u)
    ensures Run(step, n, o).Undefined? || RelOutcome(r, Run(step, n, o), Run(step', n, u))
    decreases n
  {
    if n > 0 && o.Running? {
      var o' := step(o.at, o.s);
      if o'.Undefined? {
        assert Run(step, n - 1, o').Undefined?;
      } else {
        RunRelated(r, step, step', n - 1, o', step'(u.at, u.s));
      }
    }
  }

  /** Each step of `step'` is one to three steps of `step`. */
  ghost predicate Stutters<Q(!new), P(!new)>(
    r: (Q, P) -> bool, step': (Q, State<Q>) -> Outcome<Q>, step: (P, State<P>) -> Outcome<P>)
  {
    forall q, t, p, s :: r(q, p) && RelState(r, t, s) ==> StepsTo(r, step'(q, t), step, p, s)
  }

  ghost predicate StepsTo<Q, P>(
    r: (Q, P) -> bool, u: Outcome<Q>, step: (P, State<P>) -> Outcome<P>, p: P, s: State<P>)
  {
    exists g: nat :: 1 <= g <= 3 && RelOutcome(r, u, Run(step, g, Running(p, s)))
  }

  lemma StepsIn<Q, P>(
    r: (Q, P) -> bool, u: Outcome<Q>, step: (P, State<P>) -> Outcome<P>, p: P, s: State<P>, g: nat)
    requires 1 <= g <= 3
    ensures RelOutcome(r, u, Run(step, g, Running(p, s))) ==> StepsTo(r, u, step, p, s)
  {
  }

  /** A state that steps alike has the same steps. */
  lemma StepsFrom<Q, P>(
    r: (Q, P) -> bool, u: Outcome<Q>, step: (P, State<P>) -> Outcome<P>, p: P, p': P, s: State<P>)
    requires step(p, s) == step(p', s)
    ensures StepsTo(r, u, step, p', s) ==> StepsTo(r, u, step, p, s)
  {
    if StepsTo(r, u, step, p', s) {
      var g: nat :| 1 <= g <= 3 && RelOutcome(r, u, Run(step, g, Running(p', s)));
      assert Run(step, g, Running(p, s)) == Run(step, g - 1, step(p, s)) == Run(step, g, Running(p', s));
    }
  }

  /** The steps of the fine machine that make up one step of the coarse one. */
  lemma Stutter<Q(!new), P(!new)>(
    r: (Q, P) -> bool, step': (Q, State<Q>) -> Outcome<Q>, step: (P, State<P>) -> Outcome<P>,
    u: Outcome<Q>, o: Outcome<P>) returns (g: nat)
    requires Stutters(r, step', step) && RelOutcome(r, u, o) && u.Running?
    ensures 1 <= g <= 3 && RelOutcome(r, step'(u.at, u.s), Run(step, g, o))
  {
    assert StepsTo(r, step'(u.at, u.s), step, o.at, o.s);
    g :| 1 <= g <= 3 && RelOutcome(r, step'(u.at, u.s), Run(step, g, Running(o.at, o.s)));
  }

  /** Every run of the coarse machine is a run of the fine one with the same outcome. */
  lemma {:induction false} CoarseRunIsRun<Q(!new), P(!new)>(
    r: (Q, P) -> bool, step': (Q, State<Q>) -> Outcome<Q>, step: (P, State<P>) -> Outcome<P>,
    n: nat, u: Outcome<Q>, o: Outcome<P>) returns (k: nat)
    requires Stutters(r, step', step) && RelOutcome(r, u, o)
    ensures k <= 3 * n && (Run(step', n, u).Running? ==> n <= k)
    ensures RelOutcome(r, Run(step', n, u), Run(step, k, o))
    decreases n
  {
    k := 0;
    if n > 0 && u.Running? {
      var g := Stutter(r, step', step, u, o);
      var k' := CoarseRunIsRun(r, step', step, n - 1, step'(u.at, u.s), Run(step, g, o));
      RunMore(step, g, k', o);
      RunFirst(step', n - 1, u);
      k := g + k';
    }
  }

  /** Past its end a run does not change. */
  lemma {:induction false} RunPastEnd<P>(step: (P, State<P>) -> Outcome<P>, k: nat, g: nat, o: Outcome<P>)
    requires k <= g && !Run(step, k, o).Running?
    ensures Run(step, g, o) == Run(step, k, o)
  {
    RunMore(step, k, g - k, o);
    RunOver(step, g - k, Run(step, k, o));
  }

  /** Every run of the fine machine that comes to an end does so on the coarse one, in no more steps
      and with the same outcome. */
  lemma {:induction false} RunIsCoarseRun<Q(!new), P(!new)>(
    r: (Q, P) -> bool, step': (Q, State<Q>) -> Outcome<Q>, step: (P, State<P>) -> Outcome<P>,
    k: nat, u: Outcome<Q>, o: Outcome<P>) returns (n: nat)
    requires Stutters(r, step', step) && RelOutcome(r, u, o) && !Run(step, k, o).Running?
    ensures n <= k && RelOutcome(r, Run(step', n, u), Run(step, k, o))
    decreases k
  {
    if !o.Running? {
      RunOver(step, k, o);
      return 0;
    }
    var g := Stutter(r, step', step, u, o);
    if k <= g {
      RunPastEnd(step, k, g, o);
      RunOne(step', u.at, u.s);
      return 1;
    }
    RunMore(step, g, k - g, o);
    var n' := RunIsCoarseRun(r, step', step, k - g, step'(u.at, u.s), Run(step, g, o));
    RunFirst(step', n', u);
    n := 1 + n';
  }
}
