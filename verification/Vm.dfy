/** The execution loop itself: a module object whose registers and stacks are updated in place, with
    stack pointers that are addresses, a link register in which 0 means none, and a nested loop for
    every call into another module. Every turn is proved to be a step of the byte machine. */
module Vm {
  import opened Words
  import opened Isa
  import opened Cells
  import V = Vector
  import opened Codec
  import opened Machine
  import opened ByteVm

  function Ptr(a: nat): Option<nat> {
    if a == 0 then None else Some(a)
  }

  function Ptrs(s: seq<nat>): (r: seq<Option<nat>>)
    ensures |r| == |s| && forall k :: 0 <= k < |s| ==> r[k] == Ptr(s[k])
  {
    seq(|s|, k requires 0 <= k < |s| => Ptr(s[k]))
  }

  /** What one turn asks of the loop. */
  datatype Turn = Go(ip: nat) | Quit | Bad | Nest(item: nat, owner: nat, resume: nat)

  /** How a loop ended: by its own exit, by running out of turns, or where C leaves it undefined. */
  datatype End = Returned | Unfinished | Lost

  /** How a data instruction went. */
  datatype Flow = FNext | FTrap | FStuck

  function FlowOf(e: Effect): Flow {
    match e
    case Done(_) => FNext
    case Trap(_) => FTrap
    case Stuck => FStuck
  }

  function CoreAfter(e: Effect, c: Core): Core {
    if e.Stuck? then c else e.c
  }

  function UnaryValue(op: Op1, v: u64, cond: bool): u64 {
    if op == Neg then (TWO64 - v) % TWO64 else if op == Not then TWO64 - 1 - v else if cond then 1 else 0
  }

  lemma RegisterEffect(op: Op1, a: int, c: Core)
    requires a < 0 || (op != Op1.Alloc && op != Op1.Redux)
    ensures var e := Unary(op, a, c);
            if HasReg(c, a) && (op == Neg || op == Not || op == Setc) then
              e == Done(SetReg(c, a, UnaryValue(op, Reg(c, a), c.cond)))
            else e == Stuck
  {
  }

  /** Calls by number and through a register. */
  predicate IsCall(i: Instr) {
    (i.IW? && i.opw == Call) || (i.I1? && i.op1 == Callr)
  }

  class Module {
    const img: Image
    const callBase: nat
    var stack: seq<u64>
    var globals: seq<byte>
    var callstack: seq<nat>
    var osp: nat
    var csp: nat
    var lr: nat
    var cond: bool
    var err: int
    var mod: nat
    var vecLen: nat
    var vecWidth: nat

    ghost predicate Valid()
      reads this
    {
      && img.lay.opBase <= osp <= Top() && (osp - img.lay.opBase) % 8 == 0
      && callBase <= csp <= callBase + 8 * |callstack| && (csp - callBase) % 8 == 0
      && |callstack| == img.lay.callCap
    }

    /** The end of the operand stack. */
    function Top(): nat
      reads this
    {
      img.lay.opBase + 8 * |stack|
    }

    ghost function Depth(): nat
      requires Valid()
      reads this
    {
      (csp - callBase) / 8
    }

    ghost function TheCore(): Core
      requires Valid()
      reads this
    {
      Core(stack, (osp - img.lay.opBase) / 8, globals, cond, err, V.Shape(vecLen, vecWidth))
    }

    /** The call stack up to csp. */
    ghost function TheCalls(): seq<Option<nat>>
      requires Valid()
      reads this
    {
      Ptrs(callstack[..Depth()])
    }

    /** The abstract state, under the given nested loops. */
    ghost function Snap(host: seq<Host<nat>>): State<nat>
      requires Valid()
      reads this
    {
      State(TheCore(), Ptr(lr), TheCalls(), host, mod)
    }

    constructor (img: Image, callBase: nat, stack: seq<u64>, globals: seq<byte>, callstack: seq<nat>)
      requires |callstack| == img.lay.callCap
      ensures Valid() && this.img == img && this.callBase == callBase
      ensures var c := Core(stack, |stack|, globals, false, ERR_NONE, V.Shape(0, 0));
              Snap([]) == State(c, None, [], [], img.lay.root)
    {
      this.img, this.callBase := img, callBase;
      this.stack, this.globals, this.callstack := stack, globals, callstack;
      osp := img.lay.opBase + 8 * |stack|;
      csp := callBase;
      lr, cond, err, mod := 0, false, ERR_NONE, img.lay.root;
      vecLen, vecWidth := 0, 0;
    }

    /** A data instruction had effect `e` on core `c`, and went as `t` says. */
    ghost predicate Did(e: Effect, c: Core, t: Flow)
      reads this
    {
      Valid() && t == FlowOf(e) && TheCore() == CoreAfter(e, c)
    }

    // ----- registers and frames -----

    /** The cell of a register, found from the stack pointer's address. */
    function Cell(r: int): int
      reads this
    {
      (osp - img.lay.opBase) / 8 + r
    }

    predicate Has(r: int)
      reads this
    {
      0 <= r && Cell(r) < |stack|
    }

    method SetCell(r: int, v: u64)
      requires Valid() && Has(r)
      modifies this`stack
      ensures Valid() && TheCore() == SetReg(old(TheCore()), r, v)
    {
      stack := stack[Cell(r) := v];
    }

    method AllocCells(n: nat) returns (ok: bool)
      requires Valid()
      modifies this`osp, this`err
      ensures Valid()
      ensures Machine.Alloc(n, old(TheCore())) == if ok then Done(TheCore()) else Trap(TheCore())
    {
      ok := osp - 8 * n >= img.lay.opBase;
      if ok {
        osp := osp - 8 * n;
      } else {
        err := ERR_STACK_OF;
      }
    }

    method ReduxCells(n: nat)
      requires Valid()
      modifies this`osp
      ensures Valid() && TheCore() == Machine.Redux(n, old(TheCore()))
    {
      if osp + 8 * n > Top() {
        osp := Top();
      } else {
        osp := osp + 8 * n;
      }
    }

    method PushLink() returns (ok: bool)
      requires Valid()
      modifies this`callstack, this`csp
      ensures Valid() && ok == (old(Depth()) < img.lay.callCap)
      ensures TheCalls() == if ok then old(TheCalls()) + [Ptr(lr)] else old(TheCalls())
    {
      var k := (csp - callBase) / 8;
      ok := k < |callstack|;
      if ok {
        callstack := callstack[k := lr];
        csp := csp + 8;
        assert callstack[..k + 1] == old(callstack)[..k] + [lr];
        assert Ptrs(callstack[..k + 1]) == Ptrs(old(callstack)[..k]) + [Ptr(lr)];
      }
    }

    method PopLink() returns (ok: bool)
      requires Valid()
      modifies this`lr, this`csp
      ensures Valid() && ok == (old(Depth()) > 0)
      ensures !ok ==> lr == old(lr) && csp == old(csp)
      ensures ok ==> old(TheCalls()) == TheCalls() + [Ptr(lr)]
    {
      ok := csp > callBase;
      if ok {
        csp := csp - 8;
        var k := (csp - callBase) / 8;
        lr := callstack[k];
        assert callstack[..k + 1] == callstack[..k] + [lr];
        assert Ptrs(callstack[..k + 1]) == Ptrs(callstack[..k]) + [Ptr(lr)];
      }
    }

    // ----- data instructions -----

    method ExecUnary(i: Instr) returns (t: Flow)
      requires Valid() && i.I1? && !IsVector1(i.op1)
      modifies this`stack, this`osp, this`err
      ensures Did(Unary(i.op1, i.a, old(TheCore())), old(TheCore()), t)
    {
      if i.op1 == Op1.Alloc && i.a >= 0 {
        var ok := AllocCells(i.a);
        t := if ok then FNext else FTrap;
      } else if i.op1 == Op1.Redux && i.a >= 0 {
        ReduxCells(i.a);
        t := FNext;
      } else {
        t := ExecRegister(i);
      }
    }

    method ExecRegister(i: Instr) returns (t: Flow)
      requires Valid() && i.I1? && !IsVector1(i.op1) && (i.a < 0 || (i.op1 != Op1.Alloc && i.op1 != Op1.Redux))
      modifies this`stack
      ensures Did(Unary(i.op1, i.a, old(TheCore())), old(TheCore()), t)
    {
      RegisterEffect(i.op1, i.a, TheCore());
      if Has(i.a) && (i.op1 == Neg || i.op1 == Not || i.op1 == Setc) {
        t := PutReg(i.a, UnaryValue(i.op1, stack[Cell(i.a)], cond));
      } else {
        t := FStuck;
      }
    }

    method ExecBinary(i: Instr) returns (t: Flow)
      requires Valid() && i.I2? && KindOf(i.op2) == Scalar
      modifies this`stack, this`cond
      ensures Did(Data(img.lay, mod, i, old(TheCore())), old(TheCore()), t)
    {
      if Has(i.a) && Has(i.b) {
        var x, y := stack[Cell(i.a)], stack[Cell(i.b)];
        var v := Alu(i.op2, x, y);
        if v.Some? {
          SetCell(i.a, v.value);
          t := FNext;
        } else {
          t := ExecCompare(i, x, y);
        }
      } else {
        t := FStuck;
      }
    }

    method ExecCompare(i: Instr, x: u64, y: u64) returns (t: Flow)
      requires Valid() && i.I2? && KindOf(i.op2) == Scalar && Has(i.a) && Has(i.b)
      requires x == stack[Cell(i.a)] && y == stack[Cell(i.b)] && Alu(i.op2, x, y).None?
      modifies this`cond
      ensures Did(Data(img.lay, mod, i, old(TheCore())), old(TheCore()), t)
    {
      var c := Compare(i.op2, x, y);
      t := FStuck;
      if c.Some? {
        cond := c.value;
        t := FNext;
      }
    }

    method ExecVector1(i: Instr) returns (t: Flow)
      requires Valid() && i.I1? && IsVector1(i.op1)
      modifies this`stack, this`vecWidth
      ensures Did(VectorUnary(i.op1, i.a, old(TheCore())), old(TheCore()), t)
    {
      if i.a < 0 {
        t := FStuck;
      } else if i.op1 == Setelen {
        vecWidth := i.a;
        t := FNext;
      } else {
        t := ExecLanes1(i);
      }
    }

    method ExecLanes1(i: Instr) returns (t: Flow)
      requires Valid() && i.I1? && i.op1 != Setelen && i.a >= 0
      modifies this`stack
      ensures Did(VectorUnary(i.op1, i.a, old(TheCore())), old(TheCore()), t)
    {
      var r := V.UnaryLoop(i.op1, V.Shape(vecLen, vecWidth), stack, Cell(i.a));
      t := PutStack(r);
    }

    method ExecVector2(i: Instr) returns (t: Flow)
      requires Valid() && i.I2?
      modifies this`stack, this`cond
      ensures Did(VectorBinary(i.op2, i.a, i.b, old(TheCore())), old(TheCore()), t)
    {
      if i.a < 0 || i.b < 0 {
        t := FStuck;
      } else {
        match KindOf(i.op2) {
          case Scalar => t := FStuck;
          case Copying => t := ExecMove(i);
          case Equality => t := ExecSame(i);
          case Order => t := ExecOrder(i);
          case Lanes => t := ExecLanes2(i);
        }
      }
    }

    method ExecMove(i: Instr) returns (t: Flow)
      requires Valid() && i.I2? && i.a >= 0 && i.b >= 0
      modifies this`stack
      ensures Did(VectorByKind(Copying, i.op2, i.a, i.b, old(TheCore())), old(TheCore()), t)
    {
      t := PutStack(V.Move(V.Shape(vecLen, vecWidth), stack, Cell(i.a), Cell(i.b)));
    }

    method ExecSame(i: Instr) returns (t: Flow)
      requires Valid() && i.I2? && i.a >= 0 && i.b >= 0
      modifies this`cond
      ensures Did(VectorByKind(Equality, i.op2, i.a, i.b, old(TheCore())), old(TheCore()), t)
    {
      t := PutCond(V.Same(V.Shape(vecLen, vecWidth), stack, Cell(i.a), Cell(i.b)));
    }

    method ExecOrder(i: Instr) returns (t: Flow)
      requires Valid() && i.I2? && i.a >= 0 && i.b >= 0
      modifies this`cond
      ensures Did(VectorByKind(Order, i.op2, i.a, i.b, old(TheCore())), old(TheCore()), t)
    {
      ghost var c := TheCore();
      var r := V.OrderLoop(i.op2, V.Shape(vecLen, vecWidth), stack, Cell(i.a), Cell(i.b));
      assert VectorByKind(Order, i.op2, i.a, i.b, c) == WithCond(c, r);
      t := PutCond(r);
    }

    method ExecLanes2(i: Instr) returns (t: Flow)
      requires Valid() && i.I2? && i.a >= 0 && i.b >= 0
      modifies this`stack
      ensures Did(VectorByKind(Lanes, i.op2, i.a, i.b, old(TheCore())), old(TheCore()), t)
    {
      var r := V.BinaryLoop(i.op2, V.Shape(vecLen, vecWidth), stack, Cell(i.a), Cell(i.b));
      t := PutStack(r);
    }

    method PutReg(r: int, v: u64) returns (t: Flow)
      requires Valid() && Has(r)
      modifies this`stack
      ensures Did(Done(SetReg(old(TheCore()), r, v)), old(TheCore()), t)
    {
      SetCell(r, v);
      t := FNext;
    }

    method PutStack(r: Option<seq<u64>>) returns (t: Flow)
      requires Valid() && (r.Some? ==> |r.value| == |stack|)
      modifies this`stack
      ensures Did(WithStack(old(TheCore()), r), old(TheCore()), t)
    {
      t := FStuck;
      if r.Some? {
        stack := r.value;
        t := FNext;
      }
    }

    method PutCond(r: Option<bool>) returns (t: Flow)
      requires Valid()
      modifies this`cond
      ensures Did(WithCond(old(TheCore()), r), old(TheCore()), t)
    {
      t := FStuck;
      if r.Some? {
        cond := r.value;
        t := FNext;
      }
    }

    method ExecIndexed(i: Instr) returns (t: Flow)
      requires Valid() && i.IR?
      modifies this`stack
      ensures Did(Data(img.lay, mod, i, old(TheCore())), old(TheCore()), t)
    {
      t := FStuck;
      if Has(i.a) && i.n >= 0 {
        if i.opr == Lra {
          SetCell(i.a, (osp + 8 * i.n) % TWO64);
          t := FNext;
        } else if i.opr == Ldvar && mod < |img.lay.vars| && i.n < |img.lay.vars[mod]| {
          SetCell(i.a, img.lay.vars[mod][i.n]);
          t := FNext;
        } else if i.opr == Ldfn && mod < |img.lay.funcs| {
          SetCell(i.a, (img.lay.funcs[mod].addr + ITEM_SIZE * i.n) % TWO64);
          t := FNext;
        }
      }
    }

    method ExecMemory(i: Instr) returns (t: Flow)
      requires Valid() && i.IM?
      modifies this`stack, this`globals, this`err
      ensures Did(MemoryOp(img.lay, i.opm, i.a, i.b, i.off, old(TheCore())), old(TheCore()), t)
    {
      if !Has(i.a) || !Has(i.b) {
        return FStuck;
      }
      var x, y := stack[Cell(i.a)], stack[Cell(i.b)];
      assert x == Reg(TheCore(), i.a) && y == Reg(TheCore(), i.b);
      match AccessOf(i.opm) {
        case Address => t := PutReg(i.a, (y + i.off) % TWO64);
        case Store(w) => t := ExecStore(w, (x + i.off) % TWO64, y);
        case LoadSigned(w) => t := ExecLoad(w, true, i.a, (y + i.off) % TWO64);
        case LoadUnsigned(w) => t := ExecLoad(w, false, i.a, (y + i.off) % TWO64);
      }
    }

    /** The check of the last byte of an access. */
    predicate OutOfSegments(addr: u64, w: nat)
      reads this
    {
      (addr + w - 1 - img.lay.lowSeg) % TWO64 > (Top() + 1 - img.lay.lowSeg) % TWO64
    }

    method ExecStore(w: nat, addr: u64, v: u64) returns (t: Flow)
      requires Valid()
      modifies this`stack, this`globals, this`err
      ensures Did(StoreAt(img.lay, w, addr, v, old(TheCore())), old(TheCore()), t)
    {
      if OutOfSegments(addr, w) {
        err := ERR_BAD_PTR;
        t := FTrap;
      } else {
        t := StoreBytes(addr, LE(w, v));
      }
    }

    method ExecLoad(w: nat, signed: bool, a: int, addr: u64) returns (t: Flow)
      requires Valid() && Has(a)
      modifies this`stack, this`err
      ensures Did(LoadAt(img.lay, w, signed, a, addr, old(TheCore())), old(TheCore()), t)
    {
      if OutOfSegments(addr, w) {
        err := ERR_BAD_PTR;
        t := FTrap;
      } else {
        var bs := LoadBytes(addr, w);
        t := FStuck;
        if bs.Some? {
          t := PutReg(a, Extend(signed, bs.value));
        }
      }
    }

    method LoadBytes(addr: u64, w: nat) returns (bs: Option<seq<byte>>)
      requires Valid()
      ensures bs == ReadMem(img.lay, TheCore(), addr, w)
    {
      bs := None;
      if img.lay.opBase <= addr && addr + w <= Top() {
        bs := Some(StackBytes(stack, addr - img.lay.opBase, w));
      } else if img.lay.lowSeg <= addr && addr + w <= img.lay.lowSeg + |globals| {
        bs := Some(globals[addr - img.lay.lowSeg..addr - img.lay.lowSeg + w]);
      }
    }

    method StoreBytes(addr: u64, bs: seq<byte>) returns (t: Flow)
      requires Valid()
      modifies this`stack, this`globals
      ensures Valid()
      ensures var c := WriteMem(img.lay, old(TheCore()), addr, bs);
              t == (if c.None? then FStuck else FNext)
              && TheCore() == if c.None? then old(TheCore()) else c.value
    {
      t := FNext;
      if img.lay.opBase <= addr && addr + |bs| <= Top() {
        stack := SetStackBytes(stack, addr - img.lay.opBase, bs);
      } else if img.lay.lowSeg <= addr && addr + |bs| <= img.lay.lowSeg + |globals| {
        var o := addr - img.lay.lowSeg;
        globals := globals[..o] + bs + globals[o + |bs|..];
      } else {
        t := FStuck;
      }
    }

    method ExecData(i: Instr) returns (t: Flow)
      requires Valid()
      modifies this`stack, this`globals, this`osp, this`cond, this`err, this`vecLen, this`vecWidth
      ensures Did(Data(img.lay, mod, i, old(TheCore())), old(TheCore()), t)
    {
      match i {
        case I1(op, _) =>
          if IsVector1(op) {
            t := ExecVector1(i);
          } else {
            t := ExecUnary(i);
          }
        case I2(op, _, _) =>
          if KindOf(op) == Scalar {
            t := ExecBinary(i);
          } else {
            t := ExecVector2(i);
          }
        case IR(_, _, _) => t := ExecIndexed(i);
        case IM(_, _, _, _) => t := ExecMemory(i);
        case _ => t := ExecRest(i);
      }
    }

    method ExecRest(i: Instr) returns (t: Flow)
      requires Valid() && !i.I1? && !i.I2? && !i.IR? && !i.IM?
      modifies this`stack, this`vecLen
      ensures Did(Data(img.lay, mod, i, old(TheCore())), old(TheCore()), t)
    {
      t := FStuck;
      if i == I0(Nop) {
        t := FNext;
      } else if i.IW? && i.opw == Setvlen && i.n >= 0 {
        vecLen := i.n;
        t := FNext;
      } else if i.IQ? && Has(i.a) {
        SetCell(i.a, i.imm);
        t := FNext;
      }
    }

    // ----- control -----

    /** The step from `o` led to turn `t`. */
    ghost predicate Turned(o: Outcome<nat>, t: Turn, host: seq<Host<nat>>)
      requires Valid()
      reads this
    {
      match t
      case Go(q) => o == Running(q, Snap(host))
      case Quit => o == Exit(Snap(host))
      case Bad => o.Undefined?
      case Nest(item, owner, resume) =>
        |TheCalls()| < img.lay.callCap
        && o == Machine.Call(img.lay, Foreign(item, owner), resume, Snap(host))
    }

    method DoReturn(ghost host: seq<Host<nat>>) returns (t: Turn)
      requires Valid()
      ensures Turned(Machine.Return(Snap(host)), t, host)
    {
      t := if lr == 0 then Quit else Go(lr);
    }

    method DoCall(callee: Callee<nat>, next: nat, ghost host: seq<Host<nat>>) returns (t: Turn)
      requires Valid() && next > 0
      modifies this`lr, this`err
      ensures Valid() && Turned(Machine.Call(img.lay, callee, next, old(Snap(host))), t, host)
    {
      match callee {
        case Fail(e) =>
          err := e;
          t := Quit;
        case Local(entry) =>
          lr := next;
          t := Go(entry);
        case Foreign(entry, owner) =>
          t := if (csp - callBase) / 8 < |callstack| then Nest(entry, owner, next) else Bad;
        case NoCode =>
          t := Bad;
      }
    }

    method DoPush(next: nat, ghost host: seq<Host<nat>>) returns (t: Turn)
      requires Valid()
      modifies this`csp, this`callstack
      ensures Valid() && Turned(Frame(img.lay, I0(Pushlr), next, old(Snap(host))), t, host)
    {
      var ok := PushLink();
      t := if ok then Go(next) else Bad;
    }

    /** Taking the link register back, as the machine does it. */
    method Unlink(ghost host: seq<Host<nat>>) returns (ok: bool)
      requires Valid()
      modifies this`lr, this`csp
      ensures Valid() && ok == (old(Snap(host)).calls != [])
      ensures ok ==> Snap(host) == PopLr(old(Snap(host)))
    {
      ok := PopLink();
    }

    method DoPop(next: nat, ghost host: seq<Host<nat>>) returns (t: Turn)
      requires Valid()
      modifies this`lr, this`csp
      ensures Valid() && Turned(Frame(img.lay, I0(Poplr), next, old(Snap(host))), t, host)
    {
      var ok := Unlink(host);
      t := if ok then Go(next) else Bad;
    }

    method DoRestore(ghost next: nat, ghost host: seq<Host<nat>>) returns (t: Turn)
      requires Valid()
      modifies this`lr, this`csp
      ensures Valid() && Turned(Frame(img.lay, I0(Restore), next, old(Snap(host))), t, host)
    {
      var ok := Unlink(host);
      t := Bad;
      if ok {
        t := DoReturn(host);
      }
    }

    method DoEnter(n: nat, next: nat, ghost host: seq<Host<nat>>) returns (t: Turn)
      requires Valid()
      modifies this`osp, this`err, this`csp, this`callstack
      ensures Valid() && Turned(Frame(img.lay, I1(Enter, n), next, old(Snap(host))), t, host)
    {
      ghost var s0 := Snap(host);
      var ok := PushLink();
      t := Bad;
      if ok {
        ghost var s1 := Snap(host);
        assert s1 == PushLr(s0);
        ok := AllocCells(n);
        t := if ok then Go(next) else Quit;
        assert Snap(host) == s1.(core := TheCore());
        assert Turned(Continue(Machine.Alloc(n, s0.core), next, s1), t, host);
      }
    }

    method DoLeave(n: nat, ghost next: nat, ghost host: seq<Host<nat>>) returns (t: Turn)
      requires Valid()
      modifies this`osp, this`lr, this`csp
      ensures Valid() && Turned(Frame(img.lay, I1(Leave, n), next, old(Snap(host))), t, host)
    {
      var ok := Unlink(host);
      t := Bad;
      if ok {
        t := DropAndReturn(n, host);
      }
    }

    method DoRemit(n: nat, ghost next: nat, ghost host: seq<Host<nat>>) returns (t: Turn)
      requires Valid()
      modifies this`osp
      ensures Valid() && Turned(Frame(img.lay, I1(Remit, n), next, old(Snap(host))), t, host)
    {
      t := DropAndReturn(n, host);
    }

    method DropAndReturn(n: nat, ghost host: seq<Host<nat>>) returns (t: Turn)
      requires Valid()
      modifies this`osp
      ensures Valid()
      ensures var s := old(Snap(host)); Turned(Return(s.(core := Machine.Redux(n, s.core))), t, host)
    {
      ReduxCells(n);
      t := DoReturn(host);
    }

    method DoFrame(i: Instr, next: nat, ghost host: seq<Host<nat>>) returns (t: Turn)
      requires Valid() && IsFrame(i)
      modifies this`osp, this`err, this`lr, this`csp, this`callstack
      ensures Valid() && Turned(Frame(img.lay, i, next, old(Snap(host))), t, host)
    {
      t := Bad;
      if i == I0(Halt) {
        t := Quit;
      } else if i == I0(Ret) {
        t := DoReturn(host);
      } else if i == I0(Pushlr) {
        t := DoPush(next, host);
      } else if i == I0(Poplr) {
        t := DoPop(next, host);
      } else if i == I0(Restore) {
        t := DoRestore(next, host);
      } else if i.a >= 0 {
        if i.op1 == Enter {
          t := DoEnter(i.a, next, host);
        } else if i.op1 == Leave {
          t := DoLeave(i.a, next, host);
        } else {
          t := DoRemit(i.a, next, host);
        }
      }
    }

    method DoJump(op: OpJ, target: int, next: nat, ghost host: seq<Host<nat>>) returns (t: Turn)
      requires Valid()
      ensures target < 0 ==> t == Bad
      ensures target >= 0 ==> Turned(Perform(img.lay, Goto(op, target), next, Snap(host)), t, host)
    {
      if target < 0 {
        t := Bad;
      } else if op == Jmp || (op == Jz && !cond) || (op == Jnz && cond) {
        t := Go(target);
      } else {
        t := Go(next);
      }
    }

    method DoData(i: Instr, next: nat, ghost host: seq<Host<nat>>) returns (t: Turn)
      requires Valid() && !IsFrame(i)
      modifies this`stack, this`globals, this`osp, this`cond, this`err, this`vecLen, this`vecWidth
      ensures Valid() && Turned(Perform(img.lay, Plain(i), next, old(Snap(host))), t, host)
    {
      var flow := ExecData(i);
      t := if flow.FNext? then Go(next) else if flow.FTrap? then Quit else Bad;
    }

    /** A fetched instruction, short of entering another module. */
    method ExecOne(i: Instr, next: nat, ghost host: seq<Host<nat>>) returns (t: Turn)
      requires Valid() && next > 0
      modifies this`stack, this`globals, this`osp, this`cond, this`err, this`lr, this`csp, this`callstack
      modifies this`vecLen, this`vecWidth
      ensures Valid() && Turned(ExecInstr(img, i, next, old(Snap(host))), t, host)
    {
      if i.IJ? {
        t := DoJump(i.opj, next + i.disp, next, host);
      } else if IsCall(i) {
        t := ExecCall(i, next, host);
      } else if IsFrame(i) {
        t := DoFrame(i, next, host);
      } else {
        t := DoData(i, next, host);
      }
    }

    method ExecCall(i: Instr, next: nat, ghost host: seq<Host<nat>>) returns (t: Turn)
      requires Valid() && next > 0 && IsCall(i)
      modifies this`err, this`lr
      ensures Valid() && Turned(ExecInstr(img, i, next, old(Snap(host))), t, host)
    {
      var callee := if i.IW? then NumberedCallee(i.n) else RegisterCallee(i.a);
      CallAction(i, next, host);
      t := Bad;
      if callee.Some? {
        t := DoCall(callee.value, next, host);
      }
    }

    function NumberedCallee(n: int): Option<Callee<nat>>
      reads this
    {
      if mod < |img.tables| && 1 <= n <= |img.tables[mod]| then Some(CallItem(img.tables[mod][n - 1])) else None
    }

    function RegisterCallee(r: int): Option<Callee<nat>>
      requires Valid()
      reads this
    {
      if Has(r) then Some(PointerCallee(img, stack[Cell(r)])) else None
    }

    lemma CallAction(i: Instr, next: nat, host: seq<Host<nat>>)
      requires Valid() && IsCall(i)
      ensures var callee := if i.IW? then NumberedCallee(i.n) else RegisterCallee(i.a);
              ByteVm.Resolve(img, i, next, Snap(host))
              == if callee.None? then NoAction else Invoke(callee.value)
    {
    }

    /** `step` is the byte machine's step. */
    ghost predicate Drives(step: (nat, State<nat>) -> Outcome<nat>) {
      forall ip: nat, s: State<nat> {:trigger ByteVm.Step(img, ip, s)} ::
        step(ip, s) == ByteVm.Step(img, ip, s)
    }

    /** One turn of the loop, short of entering another module. */
    method Dispatch(ip: nat, ghost host: seq<Host<nat>>, ghost step: (nat, State<nat>) -> Outcome<nat>)
      returns (t: Turn)
      requires Valid() && Drives(step)
      modifies this`stack, this`globals, this`osp, this`cond, this`err, this`lr, this`csp, this`callstack
      modifies this`vecLen, this`vecWidth
      ensures Valid() && Turned(step(ip, old(Snap(host))), t, host)
    {
      assert step(ip, Snap(host)) == ByteVm.Step(img, ip, Snap(host));
      var f := Fetch(img.mem, ip);
      t := Bad;
      if f.Fetched? {
        t := ExecOne(f.i, f.next, host);
      }
    }

    /** The loop, for at most `fuel` turns, turns of nested loops among them; `used` counts them. */
    method Loop(start: nat, fuel: nat, ghost host: seq<Host<nat>>,
                ghost step: (nat, State<nat>) -> Outcome<nat>) returns (end: End, used: nat)
      requires Valid() && Drives(step)
      modifies this
      ensures Valid() && used <= fuel
      ensures Ended(Run(step, used, Running(start, old(Snap(host)))), end, host)
      ensures end.Unfinished? ==> used == fuel
      decreases fuel, 2
    {
      var ip, e: Option<End> := start, None;
      ghost var o0 := Running(start, Snap(host));
      used := 0;
      while used < fuel && e.None?
        invariant Valid() && used <= fuel
        invariant Came(Run(step, used, o0), e, ip, host)
        invariant e == Some(Unfinished) ==> used == fuel
        decreases fuel - used
      {
        ghost var used0 := used;
        var k: nat;
        e, k, ip := OneTurn(ip, fuel - used, host, step);
        RunMore(step, used0, k, o0);
        used := used + k;
      }
      end := if e.None? then Unfinished else e.value;
    }

    /** The run has come to `ip`, or has ended. */
    ghost predicate Came(o: Outcome<nat>, e: Option<End>, ip: nat, host: seq<Host<nat>>)
      requires Valid()
      reads this
    {
      match e
      case None => o == Running(ip, Snap(host))
      case Some(end) => Ended(o, end, host)
    }

    ghost predicate Ended(o: Outcome<nat>, end: End, host: seq<Host<nat>>)
      requires Valid()
      reads this
    {
      match end
      case Returned => o == Exit(Snap(host))
      case Unfinished => o.Running?
      case Lost => o.Undefined?
    }

    /** One turn, and the nested loop it may start. */
    method OneTurn(ip: nat, fuel: nat, ghost host: seq<Host<nat>>,
                   ghost step: (nat, State<nat>) -> Outcome<nat>) returns (e: Option<End>, k: nat, next: nat)
      requires Valid() && Drives(step) && fuel > 0
      modifies this
      ensures Valid() && 1 <= k <= fuel
      ensures Came(Run(step, k, Running(ip, old(Snap(host)))), e, next, host)
      ensures e == Some(Unfinished) ==> k == fuel
      decreases fuel, 1
    {
      ghost var s := Snap(host);
      var t := Dispatch(ip, host, step);
      ghost var o := step(ip, s);
      RunOne(step, ip, s);
      k, next := 1, 0;
      if t.Nest? {
        e, k, next := NestTurn(t, o, fuel - 1, host, step);
        RunFirst(step, k, Running(ip, s));
        k := k + 1;
      } else {
        e, next := PlainTurn(t, o, host);
      }
    }

    method PlainTurn(t: Turn, ghost o: Outcome<nat>, ghost host: seq<Host<nat>>) returns (e: Option<End>, next: nat)
      requires Valid() && Turned(o, t, host) && !t.Nest?
      ensures Came(o, e, next, host) && e != Some(Unfinished)
    {
      e := if t.Go? then None else if t.Quit? then Some(Returned) else Some(Lost);
      next := if t.Go? then t.ip else 0;
    }

    method NestTurn(t: Turn, ghost o: Outcome<nat>, fuel: nat, ghost host: seq<Host<nat>>,
                    ghost step: (nat, State<nat>) -> Outcome<nat>) returns (e: Option<End>, used: nat, ip: nat)
      requires Valid() && Drives(step) && Turned(o, t, host) && t.Nest?
      modifies this
      ensures Valid() && used <= fuel && (e == Some(Unfinished) ==> used == fuel)
      ensures Came(Run(step, used, o), e, ip, host)
      decreases fuel, 4
    {
      e, used, ip := EnterModule(t.item, t.owner, t.resume, fuel, host, step);
    }

    /** A call into another module: its loop runs with its own tables and no link register; then the caller's tables
        and link register are restored, whether or not an error was raised. */
    method EnterModule(item: nat, owner: nat, resume: nat, fuel: nat, ghost host: seq<Host<nat>>,
                       ghost step: (nat, State<nat>) -> Outcome<nat>)
      returns (e: Option<End>, used: nat, ip: nat)
      requires Valid() && Drives(step) && |TheCalls()| < img.lay.callCap
      modifies this
      ensures Valid() && used <= fuel
      ensures Came(Run(step, used, Machine.Call(img.lay, Foreign(item, owner), resume, old(Snap(host)))), e, ip, host)
      ensures e == Some(Unfinished) ==> used == fuel
      decreases fuel, 3
    {
      var mod0 := mod;
      ghost var host' := host + [Host(resume, mod0)];
      EnterTables(item, owner, resume, host);
      var inner: End;
      inner, used := Loop(item, fuel, host', step);
      ip := resume;
      e := Some(inner);
      if inner.Returned? {
        e := LeaveTables(mod0, resume, host);
      }
    }

    method EnterTables(item: nat, owner: nat, resume: nat, ghost host: seq<Host<nat>>)
      requires Valid() && |TheCalls()| < img.lay.callCap
      modifies this`callstack, this`csp, this`lr, this`mod
      ensures Valid()
      ensures Running(item, Snap(host + [Host(resume, old(mod))]))
              == Machine.Call(img.lay, Foreign(item, owner), resume, old(Snap(host)))
    {
      var _ := PushLink();
      lr := 0;
      mod := owner;
    }

    method LeaveTables(mod0: nat, resume: nat, ghost host: seq<Host<nat>>) returns (e: Option<End>)
      requires Valid()
      modifies this`mod, this`lr, this`csp
      ensures Valid() && Came(Exit(old(Snap(host + [Host(resume, mod0)]))), e, resume, host)
      ensures e != Some(Unfinished)
    {
      mod := mod0;
      var ok := PopLink();
      assert (host + [Host(resume, mod0)])[..|host|] == host;
      e := if ok then None else Some(Lost);
    }

    /** Executing from an address: at most `fuel` turns of the byte machine, and an end as it says. */
    method Exec(start: nat, fuel: nat) returns (end: End, used: nat)
      requires Valid()
      modifies this
      ensures Valid() && used <= fuel && (end.Unfinished? ==> used == fuel)
      ensures Ended(Run(Stepper(img), used, Running(start, old(Snap([])))), end, [])
    {
      end, used := Loop(start, fuel, [], Stepper(img));
    }

    // ----- starts from the host -----

    method CopyArguments(args: seq<u64>)
      requires Valid() && Cell(0) + |args| < |stack|
      modifies this`stack
      ensures Valid() && TheCore() == old(TheCore()).(stack := stack)
      ensures stack == old(stack)[..Cell(0) + 1] + args + old(stack)[Cell(0) + 1 + |args|..]
    {
      var i := 0;
      assert stack == stack[..Cell(1)] + args[..0] + stack[Cell(1)..];
      while i < |args|
        invariant i <= |args| && |stack| == |old(stack)|
        invariant stack == old(stack)[..Cell(1)] + args[..i] + old(stack)[Cell(1) + i..]
      {
        stack := stack[Cell(1 + i) := args[i]];
        i := i + 1;
      }
    }

    /** Room is taken for the value and the arguments, the arguments copied above the value, and the link register
        cleared; or the overflow error is set. */
    method PlaceArguments(args: seq<u64>) returns (ok: bool)
      requires Valid()
      modifies this`osp, this`err, this`stack, this`lr
      ensures Valid() && ok == Start(old(Snap([])), args).Some?
      ensures ok ==> Start(old(Snap([])), args) == Some(Snap([]))
      ensures !ok ==> Snap([]) == old(Snap([])).(core := old(TheCore()).(err := ERR_STACK_OF))
    {
      var bytes := 8 * (|args| + 1);
      ok := osp - bytes >= img.lay.opBase;
      if ok {
        osp := osp - bytes;
        CopyArguments(args);
        lr := 0;
      } else {
        err := ERR_STACK_OF;
      }
    }

    /** A call from the host, for at most `fuel` turns: if there is room, the function runs from its entry to its end,
        the value is read from the cell at the stack pointer, and the stack pointer raised by the room taken. */
    method InvokeFunction(entry: nat, args: seq<u64>, fuel: nat) returns (ok: bool, end: End, used: nat, value: u64)
      requires Valid()
      modifies this
      ensures ok == Start(old(Snap([])), args).Some? && used <= fuel
      ensures !ok ==> Valid() && Snap([]) == old(Snap([])).(core := old(TheCore()).(err := ERR_STACK_OF))
      ensures ok ==> CalledBack(Run(Stepper(img), used, Running(entry, Start(old(Snap([])), args).value)),
                                end, |args| + 1, value)
    {
      end, used, value := Lost, 0, 0;
      ok := PlaceArguments(args);
      if ok {
        ghost var o := Running(entry, Snap([]));
        end, used := Exec(entry, fuel);
        o := Run(Stepper(img), used, o);
        if end.Returned? {
          value := TakeValue(|args| + 1, o);
        }
      }
    }

    method TakeValue(cells: nat, ghost o: Outcome<nat>) returns (value: u64)
      requires Valid() && o == Stopped(Snap([]))
      modifies this`osp
      ensures CalledBack(o, Returned, cells, value)
    {
      value := if Has(0) then stack[Cell(0)] else 0;
      osp := osp + 8 * cells;
    }

    /** What a call from the host leaves, given how the run went. */
    ghost predicate CalledBack(o: Outcome<nat>, end: End, cells: nat, value: u64)
      reads this
    {
      match end
      case Returned =>
        && o.Stopped? && osp == img.lay.opBase + 8 * (o.s.core.osp + cells)
        && (HasReg(o.s.core, 0) ==> value == Reg(o.s.core, 0))
        && (o.s.core.osp + cells <= |o.s.core.stack| ==>
              Valid() && Snap([]) == o.s.(core := o.s.core.(osp := o.s.core.osp + cells)))
      case Unfinished => Valid() && o.Running?
      case Lost => Valid() && o.Undefined?
    }
  }
}
