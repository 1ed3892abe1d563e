/**
 The NIR pass that turns `discard` into `demote` in fragment shaders, so that
 derivatives stay correct after a kill (a workaround for application bugs).

 A shader's instructions are the concatenation, in iteration order, of the
 instructions of every block of every function; the pass visits them in that
 order and rewrites each one in place, so one flat sequence carries all the
 structure the pass depends on.
 */
module NirDemote {

  datatype ShaderStage =
    | Vertex | TessCtrl | TessEval | Geometry | Fragment | Compute | Kernel

  /** The intrinsics the pass knows about; every other intrinsic is `OtherIntrinsic`. */
  datatype IntrinsicOp =
    | Discard
    | DiscardIf
    | Demote
    | DemoteIf
    | LoadHelperInvocation
    | IsHelperInvocation
    | OtherIntrinsic(id: nat)

  /** An instruction: an intrinsic call, or any other instruction kind (ALU, load, jump, ...). */
  datatype Instr =
    | Intrinsic(op: IntrinsicOp, srcs: seq<nat>)
    | NonIntrinsic(kind: nat, srcs: seq<nat>)

  datatype Shader = Shader(stage: ShaderStage, instrs: seq<Instr>, usesDemote: bool)

  /** The instructions the pass rewrites. */
  predicate Lowerable(i: Instr)
  {
    i.Intrinsic? && (i.op == Discard || i.op == DiscardIf || i.op == LoadHelperInvocation)
  }

  /** The rewrites that make the shader use demote. */
  predicate Demotes(i: Instr)
  {
    i.Intrinsic? && (i.op == Discard || i.op == DiscardIf)
  }

  /** The opcode table of the pass's switch. */
  function LowerOp(op: IntrinsicOp): IntrinsicOp
  {
    match op
    case Discard => Demote
    case DiscardIf => DemoteIf
    case LoadHelperInvocation => IsHelperInvocation
    case _ => op
  }

  /** One instruction after the pass: only an intrinsic's opcode can change. */
  function LowerInstr(i: Instr): Instr
  {
    if i.Intrinsic? then i.(op := LowerOp(i.op)) else i
  }

  /** The rewrite maps each of the three lowerable opcodes to its own
      replacement, changes nothing else, keeps the operands, and never
      produces a lowerable instruction. */
  lemma LowerInstrTable(i: Instr)
    ensures LowerInstr(i) != i <==> Lowerable(i)
    ensures !Lowerable(LowerInstr(i))
    ensures LowerInstr(i).Intrinsic? == i.Intrinsic?
    ensures LowerInstr(i).srcs == i.srcs
    ensures i.Intrinsic? && i.op == Discard ==> LowerInstr(i).op == Demote
    ensures i.Intrinsic? && i.op == DiscardIf ==> LowerInstr(i).op == DemoteIf
    ensures i.Intrinsic? && i.op == LoadHelperInvocation ==> LowerInstr(i).op == IsHelperInvocation
  {
  }

  datatype Walk = Walk(instrs: seq<Instr>, usesDemote: bool, progress: bool)

  /** The instruction loop: rewrites `instrs` front to back, setting `usesDemote`
      for each demote produced and `progress` for each rewrite. */
  function LowerInstrs(instrs: seq<Instr>, usesDemote: bool, progress: bool): (w: Walk)
    ensures |w.instrs| == |instrs|
    ensures forall k | 0 <= k < |instrs| :: w.instrs[k] == LowerInstr(instrs[k])
    ensures w.usesDemote <==> usesDemote || exists k | 0 <= k < |instrs| :: Demotes(instrs[k])
    ensures w.progress <==> progress || exists k | 0 <= k < |instrs| :: Lowerable(instrs[k])
    decreases |instrs|
  {
    if |instrs| == 0 then
      Walk([], usesDemote, progress)
    else
      var i := instrs[0];
      var rest := LowerInstrs(instrs[1..], usesDemote || Demotes(i), progress || Lowerable(i));
      assert forall k | 1 <= k < |instrs| :: instrs[k] == instrs[1..][k - 1];
      Walk([LowerInstr(i)] + rest.instrs, rest.usesDemote, rest.progress)
  }

  /** The pass: returns the rewritten shader and whether anything changed. */
  function LowerDiscardToDemote(s: Shader): (r: (Shader, bool))
    ensures s.stage != Fragment ==> r == (s, false)
    ensures r.0.stage == s.stage
    ensures |r.0.instrs| == |s.instrs|
    ensures s.usesDemote ==> r.0.usesDemote
    ensures s.stage == Fragment ==> forall k | 0 <= k < |s.instrs| :: r.0.instrs[k] == LowerInstr(s.instrs[k])
    ensures s.stage == Fragment ==>
      (r.0.usesDemote <==> s.usesDemote || exists k | 0 <= k < |s.instrs| :: Demotes(s.instrs[k]))
  {
    if s.stage != Fragment then
      (s, false)
    else
      var w := LowerInstrs(s.instrs, s.usesDemote, false);
      (Shader(s.stage, w.instrs, w.usesDemote), w.progress)
  }

  /** Progress is reported exactly when an instruction was rewritten, which is
      exactly when the shader changed. */
  lemma ProgressIffChanged(s: Shader)
    ensures var (t, progress) := LowerDiscardToDemote(s);
      && (progress <==> s.stage == Fragment && exists k | 0 <= k < |s.instrs| :: Lowerable(s.instrs[k]))
      && (progress <==> t.instrs != s.instrs)
  {
    var (t, progress) := LowerDiscardToDemote(s);
    if s.stage == Fragment {
      if progress {
        var k :| 0 <= k < |s.instrs| && Lowerable(s.instrs[k]);
        LowerInstrTable(s.instrs[k]);
        assert t.instrs[k] != s.instrs[k];
      } else {
        forall k | 0 <= k < |s.instrs|
          ensures t.instrs[k] == s.instrs[k]
        {
          LowerInstrTable(s.instrs[k]);
        }
      }
    }
  }

  /** After the pass no discard, discard_if or load_helper_invocation remains. */
  lemma NothingLeftToLower(s: Shader)
    requires s.stage == Fragment
    ensures forall k | 0 <= k < |s.instrs| :: !Lowerable(LowerDiscardToDemote(s).0.instrs[k])
  {
    var t := LowerDiscardToDemote(s).0;
    forall k | 0 <= k < |s.instrs|
      ensures !Lowerable(t.instrs[k])
    {
      LowerInstrTable(s.instrs[k]);
    }
  }

  /** Running the pass a second time changes nothing and reports no progress. */
  lemma SecondRunIsNoop(s: Shader)
    ensures var t := LowerDiscardToDemote(s).0;
      LowerDiscardToDemote(t) == (t, false)
  {
    var t := LowerDiscardToDemote(s).0;
    if s.stage == Fragment {
      NothingLeftToLower(s);
      var (u, progress) := LowerDiscardToDemote(t);
      ProgressIffChanged(t);
      assert !progress;
      assert u.instrs == t.instrs;
      assert !(exists k | 0 <= k < |t.instrs| :: Demotes(t.instrs[k]));
      assert u.usesDemote == t.usesDemote;
    }
  }
}
