/** Fused programs on the byte machine: what assembles still assembles after fusing, and the code does the same. */
module FusionOnBytes {
  import opened Program
  import opened AssemblerProofs
  import opened Machine
  import opened Relate
  import opened Simulation
  import opened Fusion
  import S = SourceVm
  import B = ByteVm

  // ----- fused bodies assemble -----

  /** A super-instruction is shorter than its parts. */
  lemma SuperShorter(items: seq<Item>, k: nat)
    requires k < |items|
    ensures var g := GroupAt(items, k);
            && k + GroupLen(g) <= |items|
            && PcAt(items, k) + ItemSize(Fused(g, items[k])) <= PcAt(items, k + GroupLen(g))
  {
    GroupFits(items, k);
    var g := GroupAt(items, k);
    PcMonotone(items, k + 1, k + GroupLen(g));
    if !g.Single? {
      PcMonotone(items, k + 2, k + GroupLen(g));
    }
  }

  /** Fusing moves no item to a greater offset. */
  lemma {:induction false} FusedOffsets(items: seq<Item>, j: nat)
    requires j <= |Fuse(items)|
    ensures Starts(items, 0)[j] <= |items| && PcAt(Fuse(items), j) <= PcAt(items, Starts(items, 0)[j])
    decreases j
  {
    StartsEnd(items, 0, j);
    if j > 0 {
      FusedOffsets(items, j - 1);
      StartsAt(items, 0, j - 1);
      SuperShorter(items, Starts(items, 0)[j - 1]);
    }
  }

  /** Labels are declared as before. */
  lemma LabelsStay(items: seq<Item>, lab: string)
    requires MarkIndex(items, lab) < |items|
    ensures MarkIndex(Fuse(items), lab) < |Fuse(items)|
  {
    MarkStarts(items, 0, lab);
    StartsEnd(items, 0, MarkIndex(Fuse(items), lab));
  }

  lemma FusedStmtOk(src: seq<Func>, vars: seq<string>, f: Func, j: nat)
    requires f.Body? && BodyOk(src, vars, f) && j < |Fuse(f.items)| && Fuse(f.items)[j].Do?
    ensures StmtOk(FuseFuncs(src), vars, FuseFunc(f), Fuse(f.items)[j].s)
  {
    StartsAt(f.items, 0, j);
    var i := Starts(f.items, 0)[j];
    var g := GroupAt(f.items, i);
    assert NameList(FuseFuncs(src)) == NameList(src);
    match g {
      case PushAlloc(n) => assert f.items[i + 1].Do? && StmtOk(src, vars, f, f.items[i + 1].s);
      case PopReduxRet(n) => assert f.items[i + 1].Do? && StmtOk(src, vars, f, f.items[i + 1].s);
      case ReduxRet(n) => assert f.items[i].Do? && StmtOk(src, vars, f, f.items[i].s);
      case PopRet =>
      case Single =>
        assert StmtOk(src, vars, f, f.items[i].s);
        if f.items[i].s.Branch? {
          LabelsStay(f.items, f.items[i].s.lab);
        }
    }
  }

  lemma FusedBodyOk(src: seq<Func>, vars: seq<string>, f: Func)
    requires BodyOk(src, vars, f)
    ensures BodyOk(FuseFuncs(src), vars, FuseFunc(f))
  {
    if f.Body? {
      FusedOffsets(f.items, |Fuse(f.items)|);
      StartsEnd(f.items, 0, |Fuse(f.items)|);
      forall j | 0 <= j < |Fuse(f.items)| && Fuse(f.items)[j].Do?
        ensures StmtOk(FuseFuncs(src), vars, FuseFunc(f), Fuse(f.items)[j].s)
      {
        FusedStmtOk(src, vars, f, j);
      }
    }
  }

  lemma {:induction false} StartsIncrease(items: seq<Item>, j: nat, k: nat)
    requires j < k <= |Fuse(items)|
    ensures Starts(items, 0)[j] < Starts(items, 0)[k]
    decreases k
  {
    StartsAt(items, 0, k - 1);
    if j < k - 1 {
      StartsIncrease(items, j, k - 1);
    }
  }

  /** A mark of the fused program is one of the original, under the same key. */
  lemma FusedMark(src: seq<Func>, n: nat, k: nat, key: string)
    requires FiledAt(FuseFuncs(src), n, k, key)
    ensures src[n].Body? && k < |Fuse(src[n].items)| && FiledAt(src, n, Starts(src[n].items, 0)[k], key)
  {
    assert FuseFuncs(src)[n] == FuseFunc(src[n]);
    StartsAt(src[n].items, 0, k);
  }

  lemma FusedKeysDistinct(src: seq<Func>)
    requires KeysDistinct(src)
    ensures KeysDistinct(FuseFuncs(src))
  {
    forall n: nat, k: nat, n': nat, k': nat, key |
      FiledAt(FuseFuncs(src), n, k, key) && FiledAt(FuseFuncs(src), n', k', key)
      ensures n == n' && k == k'
    {
      FusedMark(src, n, k, key);
      FusedMark(src, n', k', key);
      if k < k' {
        StartsIncrease(src[n].items, k, k');
      } else if k' < k {
        StartsIncrease(src[n].items, k', k);
      }
    }
  }

  /** Whatever the assembler renders, it renders fused. */
  lemma FusedModulesOk(prog: S.Linked)
    requires ModulesOk(prog)
    ensures ModulesOk(FuseLinked(prog))
  {
    forall m | 0 <= m < |prog.mods| ensures ProgramOk(FuseLinked(prog).mods[m].funcs, FuseLinked(prog).mods[m].vars) {
      FusedProgramOk(prog.mods[m].funcs, prog.mods[m].vars);
    }
  }

  lemma FusedProgramOk(src: seq<Func>, vars: seq<string>)
    requires ProgramOk(src, vars)
    ensures ProgramOk(FuseFuncs(src), vars)
  {
    FusedKeysDistinct(src);
    forall n | 0 <= n < |src| ensures BodyOk(FuseFuncs(src), vars, FuseFuncs(src)[n]) {
      FusedBodyOk(src, vars, src[n]);
    }
  }

  // ----- and run alike -----

  /** Take a program and its fused form, both assembled and loaded. Started alike, if a run of the original comes to
      an end that is defined, both byte machines stop with the same data, error included, and the fused one in no
      more steps. */
  lemma FusedCodeAgrees(
    prog: S.Linked, img: B.Image, img': B.Image, k: nat, o: Outcome<S.Pos>, u: Outcome<S.Pos>, v: Outcome<nat>,
    w: Outcome<nat>) returns (n: nat)
    requires ModulesOk(prog) && Loaded(prog, img) && Loaded(FuseLinked(prog), img')
    requires RelOutcome(FuseRel(prog), u, o) && RelOutcome(AddrRel(prog, img), o, v)
    requires RelOutcome(AddrRel(FuseLinked(prog), img'), u, w)
    requires Run(S.Stepper(prog), k, o).Stopped?
    ensures n <= k
    ensures var v', w' := Run(B.Stepper(img), k, v), Run(B.Stepper(img'), n, w);
            v'.Stopped? && w'.Stopped? && w'.s.core == v'.s.core
  {
    FusedModulesOk(prog);
    RunSimulates(prog, img, k, o, v);
    n := RunIsFusedRun(prog, k, u, o);
    RunSimulates(FuseLinked(prog), img', n, u, w);
  }
}
