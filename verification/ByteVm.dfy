/** The machine that executes encoded modules: code pointers are addresses. */
module ByteVm {
  import opened Words
  import opened Isa
  import opened Codec
  import opened Machine

  const FLAG_NATIVE: int := 1
  const FLAG_EXTERN: int := 2
  const FLAG_LINKED: int := 4

  predicate IsNative(flags: nat) { flags % 2 == 1 }
  predicate IsExtern(flags: nat) { (flags / 2) % 2 == 1 }

  /** A runtime function-table entry; item 0 is a missing function, owner `None` a missing owner. */
  datatype Item = Item(item: nat, owner: Option<nat>, flags: nat)

  /** Memory holding the code of every loaded module, and the modules' function tables. */
  datatype Image = Image(mem: seq<byte>, tables: seq<seq<Item>>, lay: Layout)

  /** What `call` does with an entry. */
  function CallItem(it: Item): Callee<nat> {
    if it.item == 0 || it.owner.None? then Fail(it.flags)
    else if IsNative(it.flags) then NoCode
    else if IsExtern(it.flags) then Foreign(it.item, it.owner.value)
    else Local(it.item)
  }

  /** What `callr` does with an entry: it goes by the owner, not by the extern flag. */
  function CallPointer(it: Item, root: nat): Callee<nat> {
    if IsNative(it.flags) then (if it.item == 0 then Fail(ERR_BAD_NATIVE) else NoCode)
    else if it.owner.None? then Fail(ERR_BAD_EXTERN)
    else if it.item == 0 then NoCode
    else if it.owner.value != root then Foreign(it.item, it.owner.value)
    else Local(it.item)
  }

  function PointerCallee(img: Image, v: u64): Callee<nat> {
    if v == 0 then Fail(ERR_BAD_FUNC)
    else
      var e := FindItem(img.lay, v, 0);
      if e.Some? && e.value.0 < |img.tables| && e.value.1 < |img.tables[e.value.0]|
      then CallPointer(img.tables[e.value.0][e.value.1], img.lay.root)
      else NoCode
  }

  function Resolve(img: Image, i: Instr, next: nat, s: State<nat>): Action<nat> {
    match i
    case IJ(op, disp) => if next + disp >= 0 then Goto(op, next + disp) else NoAction
    case IW(Call, n) =>
      if s.mod < |img.tables| && 1 <= n <= |img.tables[s.mod]|
      then Invoke(CallItem(img.tables[s.mod][n - 1])) else NoAction
    case I1(Callr, a) =>
      if HasReg(s.core, a) then Invoke(PointerCallee(img, Reg(s.core, a))) else NoAction
    case _ => Plain(i)
  }

  function ExecInstr(img: Image, i: Instr, next: nat, s: State<nat>): Outcome<nat> {
    Perform(img.lay, Resolve(img, i, next, s), next, s)
  }

  /** One turn of the dispatch loop. */
  function Step(img: Image, ip: nat, s: State<nat>): Outcome<nat> {
    var f := Fetch(img.mem, ip);
    if f.NoInstr? then Undefined else ExecInstr(img, f.i, f.next, s)
  }

  function Stepper(img: Image): (nat, State<nat>) -> Outcome<nat> {
    (ip: nat, s: State<nat>) => Step(img, ip, s)
  }
}
