/** From source to execution: modules assembled, written, loaded and linked run as their source says. */
module Toolchain {
  import opened Words
  import opened Isa
  import opened Program
  import opened Machine
  import opened AssemblerProofs
  import opened Relate
  import opened ModuleImage
  import opened Loader
  import opened Simulation
  import Codec
  import L = Linker
  import S = SourceVm
  import B = ByteVm
  import MemorySafety

  /** The record the assembler writes for a function. */
  function RecordOf(mod: S.Module, f: nat): FuncRec
    requires f < |mod.funcs|
  {
    match mod.funcs[f]
    case Body(name, _) => FuncRec(0, name, CodeOf(mod.funcs, mod.vars, f).GetOr([]))
    case Native(name) => FuncRec(B.FLAG_NATIVE, name, [])
    case Extern(name) => FuncRec(B.FLAG_EXTERN, name, [])
  }

  function RecordsOf(mod: S.Module): (fs: seq<FuncRec>)
    ensures |fs| == |mod.funcs| && forall f :: 0 <= f < |fs| ==> fs[f] == RecordOf(mod, f)
  {
    seq(|mod.funcs|, f requires 0 <= f < |mod.funcs| => RecordOf(mod, f))
  }

  /** Where a module's image lies, with what sizes and variables. */
  datatype Placement = Placement(script: nat, sizes: Sizes, vars: seq<VarRec>)

  /** The names of the variables written are those of the module. */
  predicate NamesOf(vs: seq<VarRec>, names: seq<string>) {
    |vs| == |names| && forall v :: 0 <= v < |vs| ==> vs[v].name == names[v]
  }

  /** The written image of the source module lies in memory, with sizes and offsets that fit its header. */
  ghost predicate ImageThere(mod: S.Module, img: B.Image, pl: Placement) {
    && PlacedAt(img.mem, pl.script, ImageOf(pl.sizes, RecordsOf(mod), pl.vars))
    && Records(RecordsOf(mod), pl.vars) && NamesOf(pl.vars, mod.vars)
    && Addressable(pl.sizes, RecordsOf(mod), pl.vars)
  }

  /** The tables of module `m` are what the loader makes of the image at `script`, by its header. */
  ghost predicate TablesRead(img: B.Image, m: nat, script: nat) {
    && HasHeader(img.mem, script) && m < |img.tables| && m < |img.lay.vars|
    && var rows, vars := LoadedFunc(img.mem, script, m), LoadedVar(img.mem, script, m);
       && |img.tables[m]| == |rows| && (forall f :: 0 <= f < |rows| ==> img.tables[m][f] == rows[f].item)
       && |img.lay.vars[m]| == |vars| && (forall v :: 0 <= v < |vars| ==> img.lay.vars[m][v] == vars[v].item.item)
       && (m == img.lay.root ==> img.lay.lowSeg == script + ReadHeader(img.mem, script).varsOffset)
  }

  /** Module `m` of the image is what loading the written image of the source module gives. */
  ghost predicate LoadedFrom(mod: S.Module, img: B.Image, m: nat, pl: Placement) {
    ImageThere(mod, img, pl) && TablesRead(img, m, pl.script)
  }

  /** The loaded item of a function, by what was written for it. */
  ghost predicate ItemRecovered(mem: seq<byte>, it: B.Item, r: FuncRec, m: nat) {
    && it.flags == r.flags && it.owner == Owner(r.flags, m)
    && if r.flags == 0 then it.item > 0 && PlacedAt(mem, it.item, Padded(r.code)) else it.item == 0
  }

  /** Entry `f` of the function table: loaded under its function's name, and what was written for it. */
  ghost predicate FuncCorrect(mod: S.Module, img: B.Image, m: nat, script: nat, f: nat)
    requires f < |mod.funcs| && m < |img.tables| && f < |img.tables[m]|
  {
    && HasHeader(img.mem, script) && f < |LoadedFunc(img.mem, script, m)|
    && LoadedFunc(img.mem, script, m)[f].key == mod.funcs[f].name
    && LoadedFunc(img.mem, script, m)[f].item == img.tables[m][f]
    && ItemRecovered(img.mem, img.tables[m][f], RecordOf(mod, f), m)
  }

  /** Variable `v`: loaded under its name, its data where its address says. */
  ghost predicate VarCorrect(img: B.Image, m: nat, script: nat, v: nat, r: VarRec)
    requires m < |img.lay.vars| && v < |img.lay.vars[m]|
  {
    && HasHeader(img.mem, script) && v < |LoadedVar(img.mem, script, m)|
    && LoadedVar(img.mem, script, m)[v].key == r.name
    && LoadedVar(img.mem, script, m)[v].item.item == img.lay.vars[m][v]
    && PlacedAt(img.mem, img.lay.vars[m][v], Padded(r.data))
  }

  /** The tables read are those written. */
  ghost predicate TablesCorrect(mod: S.Module, img: B.Image, m: nat, pl: Placement) {
    && m < |img.tables| && |img.tables[m]| == |mod.funcs|
    && m < |img.lay.vars| && |img.lay.vars[m]| == |pl.vars| && NamesOf(pl.vars, mod.vars)
    && (forall f :: 0 <= f < |mod.funcs| ==> FuncCorrect(mod, img, m, pl.script, f))
    && forall v :: 0 <= v < |pl.vars| ==> VarCorrect(img, m, pl.script, v, pl.vars[v])
  }

  lemma LoadingIsCorrect(mod: S.Module, img: B.Image, m: nat, pl: Placement)
    requires LoadedFrom(mod, img, m, pl)
    ensures TablesCorrect(mod, img, m, pl)
  {
    ImageRoundTrip(img.mem, pl.script, pl.sizes, RecordsOf(mod), pl.vars, m);
    ReadTablesCorrect(mod, img, m, pl);
  }

  lemma ReadTablesCorrect(mod: S.Module, img: B.Image, m: nat, pl: Placement)
    requires TablesRead(img, m, pl.script) && NamesOf(pl.vars, mod.vars)
    requires FuncsLoad(img.mem, pl.script, RecordsOf(mod), m) && VarsLoad(img.mem, pl.script, pl.vars, m)
    ensures TablesCorrect(mod, img, m, pl)
  {
    forall f | 0 <= f < |mod.funcs|
      ensures f < |img.tables[m]| && FuncCorrect(mod, img, m, pl.script, f)
    {
      FuncRowCorrect(mod, img, m, pl.script, f);
    }
    forall v | 0 <= v < |pl.vars|
      ensures v < |img.lay.vars[m]| && VarCorrect(img, m, pl.script, v, pl.vars[v])
    {
      VarRowCorrect(img, m, pl.script, pl.vars, v);
    }
  }

  lemma FuncRowCorrect(mod: S.Module, img: B.Image, m: nat, script: nat, f: nat)
    requires TablesRead(img, m, script) && FuncsLoad(img.mem, script, RecordsOf(mod), m) && f < |mod.funcs|
    ensures |img.tables[m]| == |mod.funcs| && FuncCorrect(mod, img, m, script, f)
  {
    LoadedFuncRow(img.mem, script, RecordsOf(mod), m, f);
  }

  lemma VarRowCorrect(img: B.Image, m: nat, script: nat, vs: seq<VarRec>, v: nat)
    requires TablesRead(img, m, script) && VarsLoad(img.mem, script, vs, m) && v < |vs|
    ensures |img.lay.vars[m]| == |vs| && VarCorrect(img, m, script, v, vs[v])
  {
    LoadedVarRow(img.mem, script, vs, m, v);
  }

  /** Every module of an unlinked program loaded from its image. */
  ghost predicate AllLoadedFrom(prog: S.Linked, img: B.Image, pls: seq<Placement>) {
    && img.lay == prog.lay && |img.tables| == |prog.mods| == |pls|
    && forall m :: 0 <= m < |prog.mods| ==>
         prog.mods[m].links == map[] && LoadedFrom(prog.mods[m], img, m, pls[m])
  }

  ghost predicate AllCorrect(prog: S.Linked, img: B.Image, pls: seq<Placement>) {
    && img.lay == prog.lay && |img.tables| == |prog.mods| == |pls|
    && forall m :: 0 <= m < |prog.mods| ==>
         prog.mods[m].links == map[] && TablesCorrect(prog.mods[m], img, m, pls[m])
  }

  lemma AllLoadCorrect(prog: S.Linked, img: B.Image, pls: seq<Placement>)
    requires AllLoadedFrom(prog, img, pls)
    ensures AllCorrect(prog, img, pls)
  {
    forall m | 0 <= m < |prog.mods| ensures TablesCorrect(prog.mods[m], img, m, pls[m]) {
      LoadingIsCorrect(prog.mods[m], img, m, pls[m]);
    }
  }

  lemma EntryFromImage(prog: S.Linked, img: B.Image, pls: seq<Placement>, m: nat, f: nat)
    requires ModulesOk(prog) && AllCorrect(prog, img, pls)
    requires m < |prog.mods| && f < |prog.mods[m].funcs|
    ensures f < |img.tables[m]| && EntryLoaded(prog, img, m, f)
    ensures L.FreshItem(img.tables[m][f], m)
  {
    assert TablesCorrect(prog.mods[m], img, m, pls[m]) && ProgramOk(prog.mods[m].funcs, prog.mods[m].vars);
    assert FuncCorrect(prog.mods[m], img, m, pls[m].script, f);
    EntryRecovered(prog, img, m, f);
  }

  /** The recovered item of a function is what a loaded entry should be. */
  lemma EntryRecovered(prog: S.Linked, img: B.Image, m: nat, f: nat)
    requires m < |prog.mods| && f < |prog.mods[m].funcs| && m < |img.tables| && f < |img.tables[m]|
    requires ProgramOk(prog.mods[m].funcs, prog.mods[m].vars) && prog.mods[m].links == map[]
    requires ItemRecovered(img.mem, img.tables[m][f], RecordOf(prog.mods[m], f), m)
    ensures EntryLoaded(prog, img, m, f) && L.FreshItem(img.tables[m][f], m)
  {
    var mod := prog.mods[m];
    if mod.funcs[f].Body? {
      ProgramEmits(mod.funcs, mod.vars, f, |mod.funcs[f].items|);
      BodyItem(mod, img.mem, img.tables[m][f], f, m);
    }
  }

  lemma BodyItem(mod: S.Module, mem: seq<byte>, it: B.Item, f: nat, m: nat)
    requires f < |mod.funcs| && mod.funcs[f].Body? && CodeOf(mod.funcs, mod.vars, f).Some?
    requires ItemRecovered(mem, it, RecordOf(mod, f), m)
    ensures it.item > 0 && it.owner == Some(m) && it.flags == 0
    ensures PlacedAt(mem, it.item, CodeOf(mod.funcs, mod.vars, f).value)
  {
    var code := CodeOf(mod.funcs, mod.vars, f).value;
    PlacedSplit(mem, it.item, code, Codec.Zeros(AlignSize(|code|, 4) - |code|));
  }

  /** Assembled, written and loaded modules are in memory as the simulation theorem wants them. */
  lemma AssembledModulesLoad(prog: S.Linked, img: B.Image, pls: seq<Placement>)
    requires ModulesOk(prog) && AllLoadedFrom(prog, img, pls)
    ensures Loaded(prog, img)
  {
    AllLoadCorrect(prog, img, pls);
    CorrectIsLoaded(prog, img, pls);
  }

  lemma CorrectIsLoaded(prog: S.Linked, img: B.Image, pls: seq<Placement>)
    requires ModulesOk(prog) && AllCorrect(prog, img, pls)
    ensures Loaded(prog, img) && L.FreshlyLoaded(TablesOf(prog, img.tables))
  {
    forall m, f | 0 <= m < |prog.mods| && 0 <= f < |prog.mods[m].funcs|
      ensures f < |img.tables[m]| && EntryLoaded(prog, img, m, f) && L.FreshItem(img.tables[m][f], m)
    {
      EntryFromImage(prog, img, pls, m, f);
    }
    forall m | 0 <= m < |prog.mods| ensures |img.tables[m]| == |prog.mods[m].funcs| {
      assert TablesCorrect(prog.mods[m], img, m, pls[m]);
    }
  }

  /** Statement `k` of function `f`, as it lies in memory, refers by number to the table entry that bears the name in
      it: calls count entries from 1, function and variable addresses from 0. */
  ghost predicate BindsName(mod: S.Module, img: B.Image, m: nat, script: nat, f: nat, k: nat)
    requires f < |mod.funcs| && mod.funcs[f].Body? && k < |mod.funcs[f].items| && mod.funcs[f].items[k].Do?
    requires HasHeader(img.mem, script) && m < |img.tables| && f < |img.tables[m]|
  {
    mod.funcs[f].items[k].s.CallFn? || mod.funcs[f].items[k].s.LoadFn? || mod.funcs[f].items[k].s.LoadVar? ==>
      var e := Codec.Fetch(img.mem, img.tables[m][f].item + PcAt(mod.funcs[f].items, k));
      e.Fetched? && InstrBinds(img, m, script, mod.funcs[f].items[k].s, e.i)
  }

  /** The number in the instruction selects the row loaded under the name in the statement. */
  ghost predicate InstrBinds(img: B.Image, m: nat, script: nat, s: Stmt, i: Instr)
    requires HasHeader(img.mem, script) && m < |img.tables|
  {
    match s
    case CallFn(name) => i.IW? && FuncNamed(img, m, script, i.n - 1, name)
    case LoadFn(_, name) => i.IR? && FuncNamed(img, m, script, i.n, name)
    case LoadVar(_, name) => i.IR? && VarNamed(img, m, script, i.n, name)
    case _ => true
  }

  /** Entry `n` of the function table in force for module `m` was loaded under this name. */
  predicate FuncNamed(img: B.Image, m: nat, script: nat, n: int, name: string)
    requires HasHeader(img.mem, script) && m < |img.tables|
  {
    var rows := LoadedFunc(img.mem, script, m);
    && |rows| == |img.tables[m]| && 0 <= n < |rows|
    && rows[n].key == name && rows[n].item == img.tables[m][n]
  }

  predicate VarNamed(img: B.Image, m: nat, script: nat, n: int, name: string)
    requires HasHeader(img.mem, script)
  {
    var rows := LoadedVar(img.mem, script, m);
    && m < |img.lay.vars| && |rows| == |img.lay.vars[m]| && 0 <= n < |rows|
    && rows[n].key == name && rows[n].item.item == img.lay.vars[m][n]
  }

  lemma CodeInImage(mod: S.Module, img: B.Image, m: nat, pl: Placement, f: nat) returns (code: seq<byte>)
    requires ProgramOk(mod.funcs, mod.vars) && TablesCorrect(mod, img, m, pl)
    requires f < |mod.funcs| && mod.funcs[f].Body?
    ensures CodeOf(mod.funcs, mod.vars, f) == Some(code) && PlacedAt(img.mem, img.tables[m][f].item, code)
  {
    ProgramEmits(mod.funcs, mod.vars, f, |mod.funcs[f].items|);
    code := CodeOf(mod.funcs, mod.vars, f).value;
    assert FuncCorrect(mod, img, m, pl.script, f);
    BodyItem(mod, img.mem, img.tables[m][f], f, m);
  }

  /** A loaded function's code is fetched as the instructions its statements stand for. */
  lemma PlacedBinds(mod: S.Module, img: B.Image, m: nat, script: nat, f: nat, k: nat, code: seq<byte>)
    requires ProgramOk(mod.funcs, mod.vars) && HasHeader(img.mem, script) && m < |img.tables| && f < |img.tables[m]|
    requires f < |mod.funcs| && mod.funcs[f].Body? && k < |mod.funcs[f].items| && mod.funcs[f].items[k].Do?
    requires CodeOf(mod.funcs, mod.vars, f) == Some(code) && PlacedAt(img.mem, img.tables[m][f].item, code)
    requires InstrBinds(img, m, script, mod.funcs[f].items[k].s, Meaning(mod.funcs, mod.vars, mod.funcs[f], k))
    ensures BindsName(mod, img, m, script, f, k)
  {
    FetchStatement(mod.funcs, mod.vars, f, k, code, img.mem, img.tables[m][f].item);
  }

  lemma MeaningBinds(mod: S.Module, img: B.Image, m: nat, pl: Placement, f: nat, k: nat)
    requires ProgramOk(mod.funcs, mod.vars) && TablesCorrect(mod, img, m, pl) && HasHeader(img.mem, pl.script)
    requires |LoadedFunc(img.mem, pl.script, m)| == |mod.funcs| && |LoadedVar(img.mem, pl.script, m)| == |mod.vars|
    requires f < |mod.funcs| && mod.funcs[f].Body? && k < |mod.funcs[f].items| && mod.funcs[f].items[k].Do?
    ensures InstrBinds(img, m, pl.script, mod.funcs[f].items[k].s, Meaning(mod.funcs, mod.vars, mod.funcs[f], k))
  {
    var fn := mod.funcs[f];
    assert BodyOk(mod.funcs, mod.vars, fn) && StmtOk(mod.funcs, mod.vars, fn, fn.items[k].s);
    match mod.funcs[f].items[k].s {
      case CallFn(name) =>
        assert FuncCorrect(mod, img, m, pl.script, IndexOf(NameList(mod.funcs), name));
      case LoadFn(_, name) =>
        assert FuncCorrect(mod, img, m, pl.script, IndexOf(NameList(mod.funcs), name));
      case LoadVar(_, name) =>
        assert VarCorrect(img, m, pl.script, IndexOf(mod.vars, name), pl.vars[IndexOf(mod.vars, name)]);
      case _ =>
    }
  }

  /** Name binding, from source to loaded table. */
  lemma NamesBind(mod: S.Module, img: B.Image, m: nat, pl: Placement, f: nat, k: nat)
    requires ProgramOk(mod.funcs, mod.vars) && LoadedFrom(mod, img, m, pl)
    requires f < |mod.funcs| && mod.funcs[f].Body? && k < |mod.funcs[f].items| && mod.funcs[f].items[k].Do?
    ensures f < |img.tables[m]| && BindsName(mod, img, m, pl.script, f, k)
  {
    LoadingIsCorrect(mod, img, m, pl);
    CorrectTablesBind(mod, img, m, pl, f, k);
  }

  lemma CorrectTablesBind(mod: S.Module, img: B.Image, m: nat, pl: Placement, f: nat, k: nat)
    requires ProgramOk(mod.funcs, mod.vars) && TablesCorrect(mod, img, m, pl) && HasHeader(img.mem, pl.script)
    requires |LoadedFunc(img.mem, pl.script, m)| == |mod.funcs| && |LoadedVar(img.mem, pl.script, m)| == |mod.vars|
    requires f < |mod.funcs| && mod.funcs[f].Body? && k < |mod.funcs[f].items| && mod.funcs[f].items[k].Do?
    ensures BindsName(mod, img, m, pl.script, f, k)
  {
    var code := CodeInImage(mod, img, m, pl, f);
    MeaningBinds(mod, img, m, pl, f, k);
    PlacedBinds(mod, img, m, pl.script, f, k, code);
  }

  /** `ldvar` of a variable, as assembled, written and loaded: the register receives an address, and there lies what
      the variable was declared to hold. */
  lemma LdvarFindsData(mod: S.Module, img: B.Image, m: nat, pl: Placement, name: string, a: int, c: Core)
    requires LoadedFrom(mod, img, m, pl) && name in mod.vars && HasReg(c, a)
    ensures var n := IndexOf(mod.vars, name);
            var e := LoadIndexed(img.lay, m, Ldvar, a, n, c);
            && n < |pl.vars| && e.Done?
            && PlacedAt(img.mem, Reg(e.c, a), Padded(pl.vars[n].data))
  {
    LoadingIsCorrect(mod, img, m, pl);
    CorrectLdvar(mod, img, m, pl, IndexOf(mod.vars, name), a, c);
  }

  lemma CorrectLdvar(mod: S.Module, img: B.Image, m: nat, pl: Placement, n: nat, a: int, c: Core)
    requires TablesCorrect(mod, img, m, pl) && n < |mod.vars| && HasReg(c, a)
    ensures var e := LoadIndexed(img.lay, m, Ldvar, a, n, c);
            n < |pl.vars| && e.Done? && PlacedAt(img.mem, Reg(e.c, a), Padded(pl.vars[n].data))
  {
    assert VarCorrect(img, m, pl.script, n, pl.vars[n]);
  }

  /** As long as the globals are as loaded, loads through the address of a variable of the started module read its
      declared data. */
  lemma LoadsReadData(mod: S.Module, img: B.Image, m: nat, pl: Placement, v: nat, c: Core, w: nat)
    requires LoadedFrom(mod, img, m, pl) && m == img.lay.root && v < |mod.vars|
    requires img.lay.lowSeg + |c.globals| <= |img.mem| && MemorySafety.Disjoint(img.lay, c)
    requires c.globals == img.mem[img.lay.lowSeg..img.lay.lowSeg + |c.globals|]
    requires v < |img.lay.vars[m]| && InGlobals(img.lay, c, img.lay.vars[m][v], w)
    requires w <= |Padded(pl.vars[v].data)| && 0 < w
    ensures ReadMem(img.lay, c, img.lay.vars[m][v], w) == Some(Padded(pl.vars[v].data)[..w])
  {
    LoadingIsCorrect(mod, img, m, pl);
    assert VarCorrect(img, m, pl.script, v, pl.vars[v]);
    ReadsGlobals(img, c, img.lay.vars[m][v], w, Padded(pl.vars[v].data));
  }

  lemma ReadsGlobals(img: B.Image, c: Core, addr: u64, w: nat, data: seq<byte>)
    requires img.lay.lowSeg + |c.globals| <= |img.mem| && MemorySafety.Disjoint(img.lay, c) && 0 < w <= |data|
    requires c.globals == img.mem[img.lay.lowSeg..img.lay.lowSeg + |c.globals|]
    requires InGlobals(img.lay, c, addr, w) && PlacedAt(img.mem, addr, data)
    ensures ReadMem(img.lay, c, addr, w) == Some(data[..w])
  {
    var o := addr - img.lay.lowSeg;
    SliceOfSlice(img.mem, img.lay.lowSeg, |c.globals|, o, w);
    PlacedSlice(img.mem, addr, data, 0, w);
    assert data[0..w] == data[..w];
  }

  // ----- linking -----

  lemma LoadedItemsDistinct(prog: S.Linked, img: B.Image, pls: seq<Placement>)
    requires AllLoadedFrom(prog, img, pls)
    ensures L.ItemsDistinct(TablesOf(prog, img.tables))
  {
    forall n, j, k |
      0 <= n < |prog.mods| && 0 <= j < k < |img.tables[n]|
      && img.tables[n][j].flags == 0 && img.tables[n][k].flags == 0
      ensures img.tables[n][j].item < img.tables[n][k].item
    {
      assert LoadedFrom(prog.mods[n], img, n, pls[n]);
      TableInside(prog.mods[n], img, n, pls[n]);
      CodeOrdered(prog.mods[n], img, n, pls[n], j, k);
    }
  }

  lemma CodeOrdered(mod: S.Module, img: B.Image, m: nat, pl: Placement, j: nat, k: nat)
    requires TablesRead(img, m, pl.script) && FuncTableInside(img.mem, pl.script) && j < k < |img.tables[m]|
    requires img.tables[m][j].flags == 0 && img.tables[m][k].flags == 0
    ensures img.tables[m][j].item < img.tables[m][k].item
  {
    LoadedCodeApart(img.mem, pl.script, m, j, k);
  }

  lemma TableInside(mod: S.Module, img: B.Image, m: nat, pl: Placement)
    requires LoadedFrom(mod, img, m, pl)
    ensures HasHeader(img.mem, pl.script) && FuncTableInside(img.mem, pl.script)
  {
    ImageRoundTrip(img.mem, pl.script, pl.sizes, RecordsOf(mod), pl.vars, m);
    LoadedInside(img.mem, pl.script, RecordsOf(mod), m);
  }

  /** For loaded modules: externs are linked to functions of their own name, in whatever order, exactly when no
      module's lookup of an extern's name finds a function of another name. */
  lemma LoadedLinkByNameIff(prog: S.Linked, img: B.Image, pls: seq<Placement>)
    requires ModulesOk(prog) && AllLoadedFrom(prog, img, pls)
    ensures var ts0 := TablesOf(prog, img.tables);
            (forall ops :: L.LinksByName(ts0, ops)) <==> L.NameSafe(ts0)
  {
    AllLoadCorrect(prog, img, pls);
    CorrectIsLoaded(prog, img, pls);
    LoadedItemsDistinct(prog, img, pls);
    L.LinkedByNameIff(TablesOf(prog, img.tables));
  }

  /** The names and items of the loaded tables. */
  function TablesOf(prog: S.Linked, tables: seq<seq<B.Item>>): (ts: seq<L.Funcs>)
    requires |tables| == |prog.mods|
    ensures |ts| == |tables|
    ensures forall m :: 0 <= m < |ts| ==> ts[m] == L.Funcs(NameList(prog.mods[m].funcs), tables[m])
  {
    seq(|tables|, m requires 0 <= m < |tables| => L.Funcs(NameList(prog.mods[m].funcs), tables[m]))
  }

  function ItemsOf(ts: seq<L.Funcs>): (r: seq<seq<B.Item>>)
    ensures |r| == |ts| && forall m :: 0 <= m < |ts| ==> r[m] == ts[m].items
  {
    seq(|ts|, m requires 0 <= m < |ts| => ts[m].items)
  }

  /** Only modules are linked against each other; natives are outside the source machine. */
  predicate ModuleLinks(ops: seq<L.LinkOp>) {
    forall k :: 0 <= k < |ops| ==> ops[k].Against?
  }

  /** The linked program: each linked extern points to the function its entry leads to. */
  ghost predicate LinkedAs(prog: S.Linked, prog': S.Linked, ts0: seq<L.Funcs>, ts: seq<L.Funcs>) {
    && prog'.lay == prog.lay && |prog'.mods| == |prog.mods| == |ts0| == |ts|
    && forall m :: 0 <= m < |prog.mods| ==>
         && prog'.mods[m].funcs == prog.mods[m].funcs && prog'.mods[m].vars == prog.mods[m].vars
         && |ts[m].items| == |ts0[m].items| == |prog.mods[m].funcs|
         && forall f :: 0 <= f < |prog.mods[m].funcs| ==>
              LinkMatches(prog'.mods[m], f, ts0, ts0[m].items[f], ts[m].items[f])
  }

  ghost predicate LinkMatches(mod: S.Module, f: nat, ts0: seq<L.Funcs>, it0: B.Item, it: B.Item)
    requires f < |mod.funcs|
  {
    if f in mod.links then
      it0.flags == B.FLAG_EXTERN
      && L.LeadsTo(ts0, mod.funcs[f].name, it, mod.links[f].0, mod.links[f].1)
    else it == it0
  }

  /** Linked externs point to functions of their own name. */
  ghost predicate LinksNamed(prog: S.Linked) {
    forall m, f :: 0 <= m < |prog.mods| && 0 <= f < |prog.mods[m].funcs| && f in prog.mods[m].links ==>
      LinkNamed(prog, m, f)
  }

  predicate LinkNamed(prog: S.Linked, m: nat, f: nat)
    requires m < |prog.mods| && f < |prog.mods[m].funcs| && f in prog.mods[m].links
  {
    var (n, j) := prog.mods[m].links[f];
    n < |prog.mods| && j < |prog.mods[n].funcs| && prog.mods[n].funcs[j].name == prog.mods[m].funcs[f].name
  }

  lemma LinkedAreNamed(prog: S.Linked, tables: seq<seq<B.Item>>, prog': S.Linked, ts: seq<L.Funcs>)
    requires |tables| == |prog.mods| && LinkedAs(prog, prog', TablesOf(prog, tables), ts)
    requires L.NameSafe(TablesOf(prog, tables))
    ensures LinksNamed(prog')
  {
    var ts0 := TablesOf(prog, tables);
    forall m, f | 0 <= m < |prog'.mods| && 0 <= f < |prog'.mods[m].funcs| && f in prog'.mods[m].links
      ensures LinkNamed(prog', m, f)
    {
      assert LinkMatches(prog'.mods[m], f, ts0, ts0[m].items[f], ts[m].items[f]);
      var (n, j) := prog'.mods[m].links[f];
      assert L.FindsByName(ts0, m, f, n);
      assert ts0[m].keys[f] == prog.mods[m].funcs[f].name && ts0[n].keys[j] == prog.mods[n].funcs[j].name;
    }
  }

  /** Linking modules against each other leaves natives alone. */
  lemma {:induction false} NativesStay(ts0: seq<L.Funcs>, ops: seq<L.LinkOp>, m: nat, f: nat)
    requires L.AllSane(ts0) && ModuleLinks(ops) && m < |ts0| && f < |ts0[m].items|
    requires ts0[m].items[f].flags == B.FLAG_NATIVE
    ensures var ts := L.ApplyAll(ts0, ops);
            L.AllSane(ts) && f < |ts[m].items| && ts[m].items[f] == ts0[m].items[f]
    decreases |ops|
  {
    if ops != [] {
      NativesStay(ts0, ops[..|ops| - 1], m, f);
    }
  }

  /** Whatever the links, there is a linked source program to match. */
  lemma LinkedProgramExists(prog: S.Linked, ts0: seq<L.Funcs>, ops: seq<L.LinkOp>)
    returns (prog': S.Linked)
    requires L.FreshlyLoaded(ts0) && ModuleLinks(ops)
    requires |ts0| == |prog.mods|
    requires forall m :: 0 <= m < |ts0| ==>
               ts0[m].keys == NameList(prog.mods[m].funcs) && |ts0[m].items| == |prog.mods[m].funcs|
    ensures LinkedAs(prog, prog', ts0, L.ApplyAll(ts0, ops))
  {
    var ts := L.ApplyAll(ts0, ops);
    L.LinkingIsSound(ts0, ops);
    var mods: seq<S.Module> := [];
    var m := 0;
    while m < |prog.mods|
      invariant 0 <= m <= |prog.mods| && |mods| == m
      invariant forall k :: 0 <= k < m ==>
                  && mods[k].funcs == prog.mods[k].funcs && mods[k].vars == prog.mods[k].vars
                  && forall f :: 0 <= f < |prog.mods[k].funcs| ==>
                       LinkMatches(mods[k], f, ts0, ts0[k].items[f], ts[k].items[f])
    {
      var links := LinksOf(prog.mods[m], ts0, ts0[m].items, ts[m].items, ops, m, |prog.mods[m].funcs|);
      mods := mods + [S.Module(prog.mods[m].funcs, prog.mods[m].vars, links)];
      m := m + 1;
    }
    prog' := S.Linked(mods, prog.lay);
  }

  lemma {:induction false} LinksOf(mod: S.Module, ts0: seq<L.Funcs>, items0: seq<B.Item>,
                                   items: seq<B.Item>, ops: seq<L.LinkOp>, m: nat, n: nat)
    returns (links: map<nat, (nat, nat)>)
    requires L.FreshlyLoaded(ts0) && ModuleLinks(ops) && m < |ts0| && ts0[m].items == items0
    requires L.ApplyAll(ts0, ops)[m].items == items && L.AllSound(ts0, L.ApplyAll(ts0, ops))
    requires n <= |mod.funcs| == |items| == |items0| && ts0[m].keys == NameList(mod.funcs)
    ensures forall f :: f in links ==> f < n
    ensures forall f :: 0 <= f < n ==>
              LinkMatches(S.Module(mod.funcs, mod.vars, links), f, ts0, items0[f], items[f])
    decreases n
  {
    links := map[];
    if n > 0 {
      var f := n - 1;
      var rest := LinksOf(mod, ts0, items0, items, ops, m, f);
      assert L.Sound(ts0, ts0[m].keys[f], items0[f], items[f]) && L.FreshItem(items0[f], m);
      links := rest;
      if items0[f].flags == B.FLAG_NATIVE {
        NativesStay(ts0, ops, m, f);
      } else if items[f] != items0[f] {
        var n', j :| L.LeadsTo(ts0, ts0[m].keys[f], items[f], n', j);
        links := rest[f := (n', j)];
      }
      forall g | 0 <= g < n
        ensures LinkMatches(S.Module(mod.funcs, mod.vars, links), g, ts0, items0[g], items[g])
      {
        if g < f {
          assert LinkMatches(S.Module(mod.funcs, mod.vars, rest), g, ts0, items0[g], items[g]);
        }
      }
    }
  }

  /** After linking, the image with the linked tables holds the linked program. */
  lemma LinkedModulesLoad(prog: S.Linked, img: B.Image, prog': S.Linked, tables: seq<seq<B.Item>>)
    requires ModulesOk(prog) && Loaded(prog, img)
    requires forall m :: 0 <= m < |prog.mods| ==> prog.mods[m].links == map[]
    requires |tables| == |img.tables|
    requires LinkedAs(prog, prog', TablesOf(prog, img.tables), TablesOf(prog, tables))
    ensures ModulesOk(prog') && Loaded(prog', img.(tables := tables))
  {
    var ts0 := TablesOf(prog, img.tables);
    var img' := img.(tables := tables);
    forall m, f | 0 <= m < |prog'.mods| && 0 <= f < |prog'.mods[m].funcs|
      ensures EntryLoaded(prog', img', m, f)
    {
      LinkedEntry(prog, img, prog', tables, m, f);
    }
    forall m | 0 <= m < |prog'.mods| ensures ProgramOk(prog'.mods[m].funcs, prog'.mods[m].vars) {
      assert ProgramOk(prog.mods[m].funcs, prog.mods[m].vars);
    }
  }

  lemma LinkedEntry(prog: S.Linked, img: B.Image, prog': S.Linked, tables: seq<seq<B.Item>>,
                    m: nat, f: nat)
    requires Loaded(prog, img)
    requires forall m :: 0 <= m < |prog.mods| ==> prog.mods[m].links == map[]
    requires |tables| == |img.tables|
    requires LinkedAs(prog, prog', TablesOf(prog, img.tables), TablesOf(prog, tables))
    requires m < |prog'.mods| && f < |prog'.mods[m].funcs|
    ensures f < |tables[m]| && EntryLoaded(prog', img.(tables := tables), m, f)
  {
    var ts0 := TablesOf(prog, img.tables);
    assert EntryLoaded(prog, img, m, f);
    assert LinkMatches(prog'.mods[m], f, ts0, img.tables[m][f], tables[m][f]);
    if f in prog'.mods[m].links {
      var (n, j) := prog'.mods[m].links[f];
      assert EntryLoaded(prog, img, n, j);
      assert LinkMatches(prog'.mods[n], j, ts0, img.tables[n][j], tables[n][j]);
    }
  }

  /** The whole chain. Take modules of assembly source; assemble, write and load each; link them in any
      order. Then every run of the byte machine that starts at a loaded position does, step for step,
      what the label-level machine does on the source, as long as that is defined, with externs pointing to
      the functions lookup finds for their names: of their own name, where lookup finds no others. */
  lemma ToolchainPreservesMeaning(
    prog: S.Linked, img: B.Image, pls: seq<Placement>, ops: seq<L.LinkOp>) returns (prog': S.Linked)
    requires ModulesOk(prog) && AllLoadedFrom(prog, img, pls)
    requires ModuleLinks(ops)
    ensures var ts0 := TablesOf(prog, img.tables);
            var ts := L.ApplyAll(ts0, ops);
            var img' := img.(tables := ItemsOf(ts));
            && LinkedAs(prog, prog', ts0, ts)
            && (L.NameSafe(ts0) ==> LinksNamed(prog'))
            && forall n: nat, o, u | RelOutcome(AddrRel(prog', img'), o, u) ::
                 || Run(S.Stepper(prog'), n, o).Undefined?
                 || RelOutcome(AddrRel(prog', img'), Run(S.Stepper(prog'), n, o),
                               Run(B.Stepper(img'), n, u))
  {
    var ts0 := TablesOf(prog, img.tables);
    var ts := L.ApplyAll(ts0, ops);
    var img' := img.(tables := ItemsOf(ts));
    AllLoadCorrect(prog, img, pls);
    CorrectIsLoaded(prog, img, pls);
    prog' := LinkedProgramExists(prog, ts0, ops);
    L.LinkingIsSound(ts0, ops);
    assert TablesOf(prog, ItemsOf(ts)) == ts;
    LinkedModulesLoad(prog, img, prog', ItemsOf(ts));
    if L.NameSafe(ts0) {
      LinkedAreNamed(prog, img.tables, prog', ts);
    }
    forall n: nat, o, u | RelOutcome(AddrRel(prog', img'), o, u)
      ensures Run(S.Stepper(prog'), n, o).Undefined?
              || RelOutcome(AddrRel(prog', img'), Run(S.Stepper(prog'), n, o),
                            Run(B.Stepper(img'), n, u))
    {
      RunSimulates(prog', img', n, o, u);
    }
  }
}
