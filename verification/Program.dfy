/** Assembly programs after lexing, and the byte offsets of their parts. */
module Program {
  import opened Isa

  /** One statement. Label, function and variable operands are still names; the other operands are
      the numbers as written. */
  datatype Stmt =
    | Ins(i: Instr)
    | Branch(op: OpJ, lab: string)
    | CallFn(name: string)
    | LoadFn(reg: int, name: string)
    | LoadVar(reg: int, name: string)

  datatype Item = Mark(lab: string) | Do(s: Stmt)

  datatype Func =
    | Body(name: string, items: seq<Item>)
    | Native(name: string)
    | Extern(name: string)

  function OpOfStmt(s: Stmt): Op {
    match s
    case Ins(i) => OpOfInstr(i)
    case Branch(op, _) => Jump(op)
    case CallFn(_) => Wide(Call)
    case LoadFn(_, _) => Indexed(Ldfn)
    case LoadVar(_, _) => Indexed(Ldvar)
  }

  /** Labels take no room. */
  function ItemSize(item: Item): nat {
    match item
    case Mark(_) => 0
    case Do(s) => Size(OpOfStmt(s))
  }

  /** The byte offset of item `n` from the start of its body. */
  function PcAt(items: seq<Item>, n: nat): nat
    requires n <= |items|
  {
    if n == 0 then 0 else PcAt(items, n - 1) + ItemSize(items[n - 1])
  }

  lemma {:induction false} PcMonotone(items: seq<Item>, i: nat, j: nat)
    requires i <= j <= |items|
    ensures PcAt(items, i) <= PcAt(items, j)
    decreases j
  {
    if i < j {
      PcMonotone(items, i, j - 1);
    }
  }

  /** The first occurrence of `name`, or the length of the list. */
  function IndexOf(names: seq<string>, name: string): (k: nat)
    ensures k <= |names|
    ensures k < |names| <==> name in names
    ensures k < |names| ==> names[k] == name
    ensures forall j :: 0 <= j < k ==> names[j] != name
  {
    if names == [] then 0
    else if names[0] == name then 0
    else
      var k := IndexOf(names[1..], name);
      assert forall j :: 1 <= j < |names| ==> names[j] == names[1..][j - 1];
      k + 1
  }

  /** The position of the label's mark; the length of the body when it has none. */
  function MarkIndex(items: seq<Item>, lab: string): (k: nat)
    ensures k <= |items|
    ensures k < |items| ==> items[k] == Mark(lab)
    ensures forall j :: 0 <= j < k ==> items[j] != Mark(lab)
  {
    MarkFrom(items, lab, 0)
  }

  function MarkFrom(items: seq<Item>, lab: string, i: nat): (k: nat)
    requires i <= |items|
    ensures i <= k <= |items|
    ensures k < |items| ==> items[k] == Mark(lab)
    ensures forall j :: i <= j < k ==> items[j] != Mark(lab)
    decreases |items| - i
  {
    if i == |items| || items[i] == Mark(lab) then i else MarkFrom(items, lab, i + 1)
  }

  /** Positions between items are equivalent to the next statement's. */
  function SkipMarks(items: seq<Item>, i: nat): (j: nat)
    requires i <= |items|
    ensures i <= j <= |items|
    ensures j < |items| ==> items[j].Do?
    ensures PcAt(items, j) == PcAt(items, i)
    decreases |items| - i
  {
    if i < |items| && items[i].Mark? then SkipMarks(items, i + 1) else i
  }
}
