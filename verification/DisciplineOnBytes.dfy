/** The call discipline of balanced programs on the byte machine, running their assembled and loaded code. */
module DisciplineOnBytes {
  import opened Words
  import opened Machine
  import opened Relate
  import opened Simulation
  import D = Discipline
  import S = SourceVm
  import B = ByteVm

  /** If a call has come back in the source, the corresponding one has on bytes. */
  lemma CameBackOnBytes(
    prog: S.Linked, img: B.Image, s: State<S.Pos>, t: State<nat>, o: Outcome<S.Pos>, u: Outcome<nat>)
    requires RelState(AddrRel(prog, img), s, t) && RelOutcome(AddrRel(prog, img), o, u) && D.CameBack(s, o)
    ensures D.CameBack(t, u)
  {
    var c: Core :| c.osp == s.core.osp && o == Return(s.(core := c));
    ReturnRelated(AddrRel(prog, img), s.(core := c), t.(core := c));
    SameOutcome(prog, img, o, u, Return(t.(core := c)));
  }

  /** Every call of a function of a balanced program, on its assembled code: at any later time the source run has met
      an error, or the call has come back, with control where the link register led, both stack pointers, the call
      stack, the tables in force and the pending loops as they were, or it is still in progress. */
  lemma EveryCallOnBytes(
    prog: S.Linked, fr: D.Framing, img: B.Image, p: S.Pos, a: nat, s: State<S.Pos>, t: State<nat>, n: nat)
    returns (k: nat)
    requires ModulesOk(prog) && Loaded(prog, img) && D.ProgramBalanced(prog, fr) && D.AtEntry(prog, p, s)
    requires AtAddr(prog, img, p, a) && RelState(AddrRel(prog, img), s, t)
    ensures k <= n
    ensures D.Errored(Run(S.Stepper(prog), k, Running(p, s)))
            || D.CameBack(t, Run(B.Stepper(img), k, Running(a, t)))
            || (k == n && Run(B.Stepper(img), k, Running(a, t)).Running?)
  {
    k := D.EveryCallIsKept(prog, fr, p, s, n);
    var o, u := Run(S.Stepper(prog), k, Running(p, s)), Run(B.Stepper(img), k, Running(a, t));
    if !D.Errored(o) {
      RunSimulates(prog, img, k, Running(p, s), Running(a, t));
      if D.CameBack(s, o) {
        CameBackOnBytes(prog, img, s, t, o, u);
      }
    }
  }

  /** Invoking assembled code from the host: when it ends without an error, and its source is defined, the operand
      stack pointer, once the arguments are dropped again, and the call stack are as the host had them. */
  lemma HostCallOnBytes(
    prog: S.Linked, fr: D.Framing, img: B.Image, m: nat, f: nat, p: S.Pos, a: nat, s: State<S.Pos>, t: State<nat>,
    args: seq<u64>, n: nat)
    requires ModulesOk(prog) && Loaded(prog, img) && D.ProgramBalanced(prog, fr)
    requires m < |prog.mods| && f < |prog.mods[m].funcs| && D.Provider(prog, m, f) == Some(m) && t.mod == m
    requires D.HostEntry(prog, m, f) == Some(p)
    requires AtAddr(prog, img, p, a) && RelState(AddrRel(prog, img), s, t)
    requires t.host == [] && t.core.err == ERR_NONE && Start(t, args).Some?
    requires !Run(S.Stepper(prog), n, Running(p, Start(s, args).value)).Undefined?
    requires EndedWell(Run(B.Stepper(img), n, Running(a, Start(t, args).value)))
    ensures var u := Run(B.Stepper(img), n, Running(a, Start(t, args).value));
            u.s.core.osp + |args| + 1 == t.core.osp && u.s.calls == t.calls
  {
    StartsRelated(AddrRel(prog, img), s, t, args);
    D.StartsAtEntry(prog, m, f, p, s, args);
    RunComesBackOnBytes(prog, fr, img, p, a, Start(s, args).value, Start(t, args).value, n);
  }

  lemma StartsRelated(r: (S.Pos, nat) -> bool, s: State<S.Pos>, t: State<nat>, args: seq<u64>)
    requires RelState(r, s, t) && Start(t, args).Some?
    ensures Start(s, args).Some? && RelState(r, Start(s, args).value, Start(t, args).value)
    ensures Start(s, args).value.lr.None? && |Start(s, args).value.host| == |t.host|
  {
  }

  lemma RunComesBackOnBytes(
    prog: S.Linked, fr: D.Framing, img: B.Image, p: S.Pos, a: nat, s: State<S.Pos>, t: State<nat>, n: nat)
    requires ModulesOk(prog) && Loaded(prog, img) && D.ProgramBalanced(prog, fr) && D.AtEntry(prog, p, s)
    requires AtAddr(prog, img, p, a) && RelState(AddrRel(prog, img), s, t) && s.lr.None? && s.host == []
    requires !Run(S.Stepper(prog), n, Running(p, s)).Undefined? && EndedWell(Run(B.Stepper(img), n, Running(a, t)))
    ensures D.CameBack(t, Run(B.Stepper(img), n, Running(a, t)))
  {
    var o, u := Run(S.Stepper(prog), n, Running(p, s)), Run(B.Stepper(img), n, Running(a, t));
    RunSimulates(prog, img, n, Running(p, s), Running(a, t));
    EndedBoth(prog, img, o, u);
    D.RunComesBack(prog, fr, p, s, n);
    CameBackOnBytes(prog, img, s, t, o, u);
  }

  lemma EndedBoth(prog: S.Linked, img: B.Image, o: Outcome<S.Pos>, u: Outcome<nat>)
    requires RelOutcome(AddrRel(prog, img), o, u) && EndedWell(u)
    ensures EndedWell(o)
  {
  }
}
