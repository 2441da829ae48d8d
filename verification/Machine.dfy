/** What instructions do, independently of how code is addressed. Registers, memory and the operand
    stack are common to every view of a program; code pointers are a type parameter. */
module Machine {
  import opened Words
  import opened Isa
  import opened Cells
  import V = Vector

  // ----- error codes -----

  const ERR_NONE: int := 0
  const ERR_BAD_NATIVE: int := 1
  const ERR_BAD_EXTERN: int := 2
  const ERR_STACK_OF: int := 3
  const ERR_BAD_PTR: int := 5
  const ERR_BAD_FUNC: int := 6

  // ----- data -----

  /** A function table: its address and its number of entries. */
  datatype Table = Table(addr: nat, len: nat)

  const ITEM_SIZE: int := 24

  /** Addresses fixed by loading: the lower memory segment, the base of the operand stack, the cells
      of the call stack, and each module's function table and variables. `root` is the module the
      host started. */
  datatype Layout = Layout(
    lowSeg: u64, opBase: u64, callCap: nat, funcs: seq<Table>, vars: seq<seq<u64>>, root: nat)

  /** `stack` is the whole operand stack, lowest address first; `osp` counts its unallocated cells,
      so register r is cell osp + r. `globals` are the bytes from the lower segment on; `vec` is the
      shape of vector operands. */
  datatype Core =
    Core(stack: seq<u64>, osp: nat, globals: seq<byte>, cond: bool, err: int, vec: V.Shape)

  predicate HasReg(c: Core, r: int) {
    0 <= r && c.osp + r < |c.stack|
  }

  function Reg(c: Core, r: int): u64
    requires HasReg(c, r)
  {
    c.stack[c.osp + r]
  }

  function SetReg(c: Core, r: int, v: u64): Core
    requires HasReg(c, r)
  {
    c.(stack := c.stack[c.osp + r := v])
  }

  function OspAddr(lay: Layout, c: Core): nat {
    lay.opBase + 8 * c.osp
  }

  // ----- arithmetic -----

  lemma QuotientShrinks(x: u64, y: int)
    requires y > 0
    ensures 0 <= x / y <= x
  {
    var q := x / y;
    assert x == q * y + x % y;
    if q > x {
      MulAtLeast(y, q);
    }
  }

  /** The integer operations: the new value of the destination register; `None` where the C operation
      is undefined. Division and remainder are unsigned. */
  function Alu(op: Op2, x: u64, y: u64): Option<u64> {
    match op
    case Mov => Some(y)
    case Add => Some((x + y) % TWO64)
    case Sub => Some((x - y) % TWO64)
    case Mul => Some((x * y) % TWO64)
    case Idiv => if y == 0 then None else Some(Quotient(x, y))
    case Mod => if y == 0 then None else Some(Remainder(x, y))
    case And => Some(BitAnd(x, y))
    case Or => Some(BitOr(x, y))
    case Xor => Some(BitXor(x, y))
    case Sll => if y >= 64 then None else Some((x * Pow2(y)) % TWO64)
    case Srl => if y >= 64 then None else Some(Quotient(x, Pow2(y)))
    case Sra => if y >= 64 then None else Some((Signed(TWO64, x) / Pow2(y)) % TWO64)
    case _ => None
  }

  function Quotient(x: u64, y: int): u64
    requires y > 0
  {
    QuotientShrinks(x, y);
    x / y
  }

  function Remainder(x: u64, y: u64): u64
    requires y > 0
  {
    x % y
  }

  /** The outcome of an integer comparison. */
  function Compare(op: Op2, x: u64, y: u64): Option<bool> {
    match op
    case Cmp => Some(x == y)
    case Ilt => Some(Signed(TWO64, x) < Signed(TWO64, y))
    case Ile => Some(Signed(TWO64, x) <= Signed(TWO64, y))
    case Ult => Some(x < y)
    case Ule => Some(x <= y)
    case _ => None
  }

  // ----- memory -----

  /** The upper end of checked memory: one past the end of the operand stack. */
  function HighSeg(lay: Layout, c: Core): nat {
    lay.opBase + 8 * |c.stack| + 1
  }

  /** The bounds check of a `w`-byte access at `addr`, in 64-bit arithmetic. It looks only at the
      address of the last byte. */
  predicate Checked(lay: Layout, c: Core, addr: u64, w: nat) {
    (addr + w - 1 - lay.lowSeg) % TWO64 <= (HighSeg(lay, c) - lay.lowSeg) % TWO64
  }

  predicate InStack(lay: Layout, c: Core, addr: u64, w: nat) {
    lay.opBase <= addr && addr + w <= lay.opBase + 8 * |c.stack|
  }

  predicate InGlobals(lay: Layout, c: Core, addr: u64, w: nat) {
    lay.lowSeg <= addr && addr + w <= lay.lowSeg + |c.globals|
  }

  /** The bytes of an access that lies within the operand stack or within the globals. */
  function ReadMem(lay: Layout, c: Core, addr: u64, w: nat): Option<seq<byte>> {
    if InStack(lay, c, addr, w) then
      Some(StackBytes(c.stack, addr - lay.opBase, w))
    else if InGlobals(lay, c, addr, w) then
      Some(c.globals[addr - lay.lowSeg..addr - lay.lowSeg + w])
    else None
  }

  function WriteMem(lay: Layout, c: Core, addr: u64, bs: seq<byte>): Option<Core> {
    if InStack(lay, c, addr, |bs|) then
      Some(c.(stack := SetStackBytes(c.stack, addr - lay.opBase, bs)))
    else if InGlobals(lay, c, addr, |bs|) then
      var o := addr - lay.lowSeg;
      Some(c.(globals := c.globals[..o] + bs + c.globals[o + |bs|..]))
    else None
  }

  datatype Access = Address | LoadSigned(w: nat) | LoadUnsigned(w: nat) | Store(w: nat)

  function AccessOf(op: OpM): Access {
    match op
    case Lea => Address
    case Ld1 => LoadSigned(1)
    case Ld2 => LoadSigned(2)
    case Ld4 => LoadSigned(4)
    case Ld8 => LoadUnsigned(8)
    case Ldu1 => LoadUnsigned(1)
    case Ldu2 => LoadUnsigned(2)
    case Ldu4 => LoadUnsigned(4)
    case St1 => Store(1)
    case St2 => Store(2)
    case St4 => Store(4)
    case St8 => Store(8)
  }

  function SignExtend(s: seq<byte>): u64 {
    FromLEBound(s);
    Signed(Pow256(|s|), FromLE(s)) % TWO64
  }

  // ----- data instructions -----

  /** `Done`: the next instruction follows. `Trap`: execution stops with `err` set. `Stuck`: C leaves
      the behaviour undefined, or the model does not hold the memory or the operation. */
  datatype Effect = Done(c: Core) | Trap(c: Core) | Stuck

  function Alloc(n: nat, c: Core): Effect {
    if c.osp < n then Trap(c.(err := ERR_STACK_OF)) else Done(c.(osp := c.osp - n))
  }

  /** Deallocation saturates at the top of the stack. */
  function Redux(n: nat, c: Core): Core {
    c.(osp := if c.osp + n > |c.stack| then |c.stack| else c.osp + n)
  }

  function Unary(op: Op1, a: int, c: Core): Effect {
    if op == Op1.Alloc && 0 <= a then Alloc(a, c)
    else if op == Op1.Redux && 0 <= a then Done(Redux(a, c))
    else if op == Neg && HasReg(c, a) then Done(SetReg(c, a, (TWO64 - Reg(c, a)) % TWO64))
    else if op == Not && HasReg(c, a) then Done(SetReg(c, a, TWO64 - 1 - Reg(c, a)))
    else if op == Setc && HasReg(c, a) then Done(SetReg(c, a, if c.cond then 1 else 0))
    else Stuck
  }

  function Binary(op: Op2, a: int, b: int, c: Core): Effect {
    if !HasReg(c, a) || !HasReg(c, b) then Stuck
    else
      var r, t := Alu(op, Reg(c, a), Reg(c, b)), Compare(op, Reg(c, a), Reg(c, b));
      if r.Some? then Done(SetReg(c, a, r.value))
      else if t.Some? then Done(c.(cond := t.value))
      else Stuck
  }

  predicate IsVector1(op: Op1) {
    op == Setelen || op == Vneg || op == Vnot
  }

  /** The kinds of operations on two registers: on words, or on vectors of integers. */
  datatype Kind = Scalar | Copying | Equality | Order | Lanes

  function KindOf(op: Op2): Kind {
    match op
    case Vmov => Copying
    case Vcmp => Equality
    case Vilt | Vile | Vult | Vule => Order
    case Vadd | Vsub | Vmul | Vdiv | Vmod | Vand | Vor | Vxor | Vsll | Vsrl | Vsra => Lanes
    case _ => Scalar
  }

  function WithStack(c: Core, stack: Option<seq<u64>>): Effect {
    if stack.None? then Stuck else Done(c.(stack := stack.value))
  }

  function WithCond(c: Core, cond: Option<bool>): Effect {
    if cond.None? then Stuck else Done(c.(cond := cond.value))
  }

  function VectorUnary(op: Op1, a: int, c: Core): Effect {
    if a < 0 then Stuck
    else if op == Setelen then Done(c.(vec := c.vec.(width := a)))
    else WithStack(c, V.Unary(op, c.vec, c.stack, c.osp + a))
  }

  function VectorBinary(op: Op2, a: int, b: int, c: Core): Effect {
    if a < 0 || b < 0 then Stuck else VectorByKind(KindOf(op), op, a, b, c)
  }

  function VectorByKind(kind: Kind, op: Op2, a: nat, b: nat, c: Core): Effect {
    match kind
    case Scalar => Stuck
    case Copying => WithStack(c, V.Move(c.vec, c.stack, c.osp + a, c.osp + b))
    case Equality => WithCond(c, V.Same(c.vec, c.stack, c.osp + a, c.osp + b))
    case Order => WithCond(c, V.Ordered(op, c.vec, c.stack, c.osp + a, c.osp + b))
    case Lanes => WithStack(c, V.Binary(op, c.vec, c.stack, c.osp + a, c.osp + b))
  }

  function LoadIndexed(lay: Layout, mod: nat, op: OpR, a: int, n: int, c: Core): Effect {
    if !HasReg(c, a) || n < 0 then Stuck
    else if op == Lra then Done(SetReg(c, a, (OspAddr(lay, c) + 8 * n) % TWO64))
    else if op == Ldvar && mod < |lay.vars| && n < |lay.vars[mod]| then
      Done(SetReg(c, a, lay.vars[mod][n]))
    else if op == Ldfn && mod < |lay.funcs| then
      Done(SetReg(c, a, (lay.funcs[mod].addr + ITEM_SIZE * n) % TWO64))
    else Stuck
  }

  function MemoryOp(lay: Layout, op: OpM, a: int, b: int, off: int, c: Core): Effect {
    if !HasReg(c, a) || !HasReg(c, b) then Stuck
    else
      match AccessOf(op)
      case Address => Done(SetReg(c, a, (Reg(c, b) + off) % TWO64))
      case Store(w) => StoreAt(lay, w, (Reg(c, a) + off) % TWO64, Reg(c, b), c)
      case LoadSigned(w) => LoadAt(lay, w, true, a, (Reg(c, b) + off) % TWO64, c)
      case LoadUnsigned(w) => LoadAt(lay, w, false, a, (Reg(c, b) + off) % TWO64, c)
  }

  function StoreAt(lay: Layout, w: nat, to: u64, v: u64, c: Core): Effect {
    if !Checked(lay, c, to, w) then Trap(c.(err := ERR_BAD_PTR))
    else
      var c' := WriteMem(lay, c, to, LE(w, v));
      if c'.None? then Stuck else Done(c'.value)
  }

  function LoadAt(lay: Layout, w: nat, signed: bool, a: int, from: u64, c: Core): Effect
    requires HasReg(c, a)
  {
    if !Checked(lay, c, from, w) then Trap(c.(err := ERR_BAD_PTR))
    else
      var bs := ReadMem(lay, c, from, w);
      if bs.None? then Stuck else Done(SetReg(c, a, Extend(signed, bs.value)))
  }

  function Extend(signed: bool, bs: seq<byte>): u64 {
    if signed then SignExtend(bs) else FromLE(bs) % TWO64
  }

  /** Instructions that continue at the next one. */
  function Data(lay: Layout, mod: nat, i: Instr, c: Core): Effect {
    match i
    case I0(op) => if op == Nop then Done(c) else Stuck
    case I1(op, a) => if IsVector1(op) then VectorUnary(op, a, c) else Unary(op, a, c)
    case I2(op, a, b) => if KindOf(op) == Scalar then Binary(op, a, b, c) else VectorBinary(op, a, b, c)
    case IW(op, n) =>
      if op == Setvlen && n >= 0 then Done(c.(vec := c.vec.(len := n))) else Stuck
    case IR(op, a, n) => LoadIndexed(lay, mod, op, a, n, c)
    case IM(op, a, b, off) => MemoryOp(lay, op, a, b, off, c)
    case IJ(_, _) => Stuck
    case IQ(a, imm) => if HasReg(c, a) then Done(SetReg(c, a, imm)) else Stuck
  }

  // ----- control -----

  /** Where a host-level invocation resumes: the instruction after the call into another module, and
      the module whose tables are then in force again. */
  datatype Host<P> = Host(resume: P, mod: nat)

  /** `lr` is the link register, `calls` the call stack up to csp, `host` the nested invocations of
      the execution loop, `mod` the module whose tables are in force. */
  datatype State<P> =
    State(core: Core, lr: Option<P>, calls: seq<Option<P>>, host: seq<Host<P>>, mod: nat)

  datatype Outcome<P> = Running(at: P, s: State<P>) | Stopped(s: State<P>) | Undefined

  datatype Callee<P> = Fail(err: int) | Local(entry: P) | Foreign(entry: P, owner: nat) | NoCode

  /** An instruction with its code operands resolved. */
  datatype Action<P> = Plain(i: Instr) | Goto(op: OpJ, target: P) | Invoke(callee: Callee<P>) | NoAction

  /** The innermost execution loop returns. If it was entered from another, that one resumes, whether
      or not an error was raised, popping the link register it had pushed. */
  function Exit<P>(s: State<P>): Outcome<P> {
    if s.host == [] then Stopped(s)
    else
      var h := s.host[|s.host| - 1];
      if s.calls == [] then Undefined
      else
        var s' := s.(host := s.host[..|s.host| - 1], mod := h.mod);
        Running(h.resume, PopLr(s'))
  }

  function PopLr<P>(s: State<P>): State<P>
    requires s.calls != []
  {
    s.(lr := s.calls[|s.calls| - 1], calls := s.calls[..|s.calls| - 1])
  }

  function PushLr<P>(s: State<P>): State<P> {
    s.(calls := s.calls + [s.lr])
  }

  function Continue<P>(e: Effect, next: P, s: State<P>): Outcome<P> {
    match e
    case Done(c) => Running(next, s.(core := c))
    case Trap(c) => Exit(s.(core := c))
    case Stuck => Undefined
  }

  function Return<P>(s: State<P>): Outcome<P> {
    if s.lr.None? then Exit(s) else Running(s.lr.value, s)
  }

  function Call<P>(lay: Layout, callee: Callee<P>, next: P, s: State<P>): Outcome<P> {
    match callee
    case Fail(err) => Exit(s.(core := s.core.(err := err)))
    case Local(entry) => Running(entry, s.(lr := Some(next)))
    case Foreign(entry, owner) =>
      if |s.calls| >= lay.callCap then Undefined
      else
        var s' := PushLr(s);
        Running(entry, s'.(lr := None, host := s.host + [Host(next, s.mod)], mod := owner))
    case NoCode => Undefined
  }

  predicate Taken(op: OpJ, c: Core) {
    op == Jmp || (op == Jz && !c.cond) || (op == Jnz && c.cond)
  }

  /** Frame instructions: those that touch the link register or the call stack, and `halt`. */
  function Frame<P>(lay: Layout, i: Instr, next: P, s: State<P>): Outcome<P> {
    match i
    case I0(Halt) => Exit(s)
    case I0(Ret) => Return(s)
    case I0(Pushlr) => if |s.calls| >= lay.callCap then Undefined else Running(next, PushLr(s))
    case I0(Poplr) => if s.calls == [] then Undefined else Running(next, PopLr(s))
    case I0(Restore) => if s.calls == [] then Undefined else Return(PopLr(s))
    case I1(Enter, n) =>
      if |s.calls| >= lay.callCap || n < 0 then Undefined
      else Continue(Alloc(n, s.core), next, PushLr(s))
    case I1(Leave, n) =>
      if s.calls == [] || n < 0 then Undefined
      else Return(PopLr(s).(core := Redux(n, s.core)))
    case I1(Remit, n) => if n < 0 then Undefined else Return(s.(core := Redux(n, s.core)))
    case _ => Undefined
  }

  predicate IsFrame(i: Instr) {
    (i.I0? && i.op0 != Nop) || (i.I1? && i.op1 in {Enter, Leave, Remit})
  }

  /** One instruction. */
  function Perform<P>(lay: Layout, a: Action<P>, next: P, s: State<P>): Outcome<P> {
    match a
    case Plain(i) =>
      if IsFrame(i) then Frame(lay, i, next, s)
      else Continue(Data(lay, s.mod, i, s.core), next, s)
    case Goto(op, target) => Running(if Taken(op, s.core) then target else next, s)
    case Invoke(callee) => Call(lay, callee, next, s)
    case NoAction => Undefined
  }

  /** The function-table entry a function pointer denotes. */
  function FindItem(lay: Layout, v: nat, m: nat): Option<(nat, nat)>
    requires m <= |lay.funcs|
    decreases |lay.funcs| - m
  {
    if m == |lay.funcs| then None
    else
      var t := lay.funcs[m];
      if t.addr <= v < t.addr + ITEM_SIZE * t.len && (v - t.addr) % ITEM_SIZE == 0
      then Some((m, (v - t.addr) / ITEM_SIZE))
      else FindItem(lay, v, m + 1)
  }

  // ----- starts from the host -----

  /** The state in which the host starts a function: room for the return value and the arguments is
      taken from the operand stack, arguments above the return value, and the link register is clear.
      `None` when they do not fit. */
  function Start<P>(s: State<P>, args: seq<u64>): Option<State<P>> {
    var n := |args| + 1;
    if s.core.osp < n || s.core.osp > |s.core.stack| then None
    else
      var o := s.core.osp - n;
      Some(s.(core := s.core.(osp := o, stack := s.core.stack[..o + 1] + args + s.core.stack[o + n..]),
              lr := None))
  }

  // ----- runs -----

  /** At most `n` steps of a machine given by its step function. */
  function Run<P>(step: (P, State<P>) -> Outcome<P>, n: nat, o: Outcome<P>): Outcome<P>
    decreases n, o
  {
    if n == 0 || !o.Running? then o else Run(step, n - 1, step(o.at, o.s))
  }

  /** Runs compose. */
  lemma {:induction false} RunMore<P>(
    step: (P, State<P>) -> Outcome<P>, a: nat, b: nat, o: Outcome<P>)
    ensures Run(step, a + b, o) == Run(step, b, Run(step, a, o))
    decreases a
  {
    if a > 0 && o.Running? {
      RunMore(step, a - 1, b, step(o.at, o.s));
    }
  }

  lemma {:induction false} RunOne<P>(step: (P, State<P>) -> Outcome<P>, p: P, s: State<P>)
    ensures Run(step, 1, Running(p, s)) == step(p, s)
  {
    assert Run(step, 1, Running(p, s)) == Run(step, 0, step(p, s));
  }

  /** The first step of a run. */
  lemma {:induction false} RunFirst<P>(step: (P, State<P>) -> Outcome<P>, n: nat, o: Outcome<P>)
    requires o.Running?
    ensures Run(step, 1 + n, o) == Run(step, n, step(o.at, o.s))
  {
  }

  /** Once over, a run stays over. */
  lemma {:induction false} RunOver<P>(step: (P, State<P>) -> Outcome<P>, n: nat, o: Outcome<P>)
    requires !o.Running?
    ensures Run(step, n, o) == o
  {
  }

  /** What every step keeps, every run keeps. */
  lemma {:induction false} RunKeeps<P(!new)>(
    step: (P, State<P>) -> Outcome<P>, ok: Outcome<P> -> bool, n: nat, o: Outcome<P>)
    requires forall p, s :: ok(Running(p, s)) ==> ok(step(p, s))
    requires ok(o)
    ensures ok(Run(step, n, o))
    decreases n
  {
    if n > 0 && o.Running? {
      RunKeeps(step, ok, n - 1, step(o.at, o.s));
    }
  }

  /** Every step from where `inv` holds is `over`, or goes on to where it holds. */
  ghost predicate Preserved<P(!new)>(
    step: (P, State<P>) -> Outcome<P>, inv: (P, State<P>) -> bool, over: Outcome<P> -> bool)
  {
    forall p, s :: inv(p, s) ==> over(step(p, s)) || (step(p, s).Running? && inv(step(p, s).at, step(p, s).s))
  }

  /** Then so does every run, unless it has been over at some point. */
  lemma {:induction false} RunPreserves<P(!new)>(
    step: (P, State<P>) -> Outcome<P>, inv: (P, State<P>) -> bool, over: Outcome<P> -> bool, p: P, s: State<P>, n: nat)
    returns (k: nat)
    requires Preserved(step, inv, over) && inv(p, s)
    ensures k <= n
    ensures var o := Run(step, k, Running(p, s));
            over(o) || (k == n && o.Running? && inv(o.at, o.s))
    decreases n
  {
    k := 0;
    if n > 0 {
      var o := step(p, s);
      k := 1;
      if over(o) {
        RunOne(step, p, s);
      } else {
        k := RunPreserves(step, inv, over, o.at, o.s, n - 1);
        RunFirst(step, k, Running(p, s));
        k := 1 + k;
      }
    }
  }

  predicate EndedWell<P>(o: Outcome<P>) {
    o.Stopped? && o.s.core.err == ERR_NONE
  }

  /** Going on from where a run is over, it never ends well but as `back` says. */
  ghost predicate EndsOnlyBack<P(!new)>(
    step: (P, State<P>) -> Outcome<P>, over: Outcome<P> -> bool, back: Outcome<P> -> bool)
  {
    forall n: nat, o :: over(o) && EndedWell(Run(step, n, o)) ==> back(Run(step, n, o))
  }

  lemma {:induction false} EndedIsBack<P(!new)>(
    step: (P, State<P>) -> Outcome<P>, inv: (P, State<P>) -> bool, over: Outcome<P> -> bool,
    back: Outcome<P> -> bool, p: P, s: State<P>, n: nat)
    requires Preserved(step, inv, over) && EndsOnlyBack(step, over, back) && inv(p, s)
    requires EndedWell(Run(step, n, Running(p, s)))
    ensures back(Run(step, n, Running(p, s)))
    decreases n
  {
    var o := step(p, s);
    assert Run(step, n, Running(p, s)) == Run(step, n - 1, o);
    if !over(o) {
      EndedIsBack(step, inv, over, back, o.at, o.s, n - 1);
    }
  }
}
