/**
 Depth-stencil state creation: the translation of Gallium stencil operations
 to the hardware's (`pan_pipe_to_stencil_op`, `pan_pipe_to_stencil`) and the
 back-face write-mask default of `panfrost_create_depth_stencil_state`.

 Each operation is given its meaning on an 8-bit stencil value, so that the
 translation can be checked against what the operations do.
 */
module Stencil {

  /** Gallium stencil operations. INCR and DECR clamp; the _WRAP forms wrap. */
  datatype PipeStencilOp = Keep | Zero | Replace | Incr | Decr | IncrWrap | DecrWrap | Invert

  /** Hardware stencil operations, with their descriptor encodings. */
  datatype MaliStencilOp = MaliKeep | MaliReplace | MaliZero | MaliInvert
                         | MaliIncrWrap | MaliDecrWrap | MaliIncrSat | MaliDecrSat

  function MaliStencilCode(op: MaliStencilOp): nat
  {
    match op
    case MaliKeep => 0 case MaliReplace => 1 case MaliZero => 2 case MaliInvert => 3
    case MaliIncrWrap => 4 case MaliDecrWrap => 5 case MaliIncrSat => 6 case MaliDecrSat => 7
  }

  /** `pan_pipe_to_stencil_op`. */
  function PipeToStencilOp(op: PipeStencilOp): MaliStencilOp
  {
    match op
    case Keep => MaliKeep
    case Zero => MaliZero
    case Replace => MaliReplace
    case Incr => MaliIncrSat
    case Decr => MaliDecrSat
    case IncrWrap => MaliIncrWrap
    case DecrWrap => MaliDecrWrap
    case Invert => MaliInvert
  }

  type Stencil8 = x: nat | x < 256

  /** What a Gallium operation stores, given the current value and the reference. */
  function PipeApply(op: PipeStencilOp, v: Stencil8, ref: Stencil8): Stencil8
  {
    match op
    case Keep => v
    case Zero => 0
    case Replace => ref
    case Incr => if v == 255 then 255 else v + 1
    case Decr => if v == 0 then 0 else v - 1
    case IncrWrap => (v + 1) % 256
    case DecrWrap => (v + 255) % 256
    case Invert => 255 - v
  }

  /** What a hardware operation stores. */
  function MaliApply(op: MaliStencilOp, v: Stencil8, ref: Stencil8): Stencil8
  {
    match op
    case MaliKeep => v
    case MaliReplace => ref
    case MaliZero => 0
    case MaliInvert => 255 - v
    case MaliIncrWrap => if v == 255 then 0 else v + 1
    case MaliDecrWrap => if v == 0 then 255 else v - 1
    case MaliIncrSat => if v == 255 then 255 else v + 1
    case MaliDecrSat => if v == 0 then 0 else v - 1
  }

  /** The translation preserves what every operation does to every stencil
      value, and is one-to-one, so no two Gallium operations collapse. */
  lemma TranslationPreservesMeaning(op: PipeStencilOp, op2: PipeStencilOp, v: Stencil8, ref: Stencil8)
    ensures MaliApply(PipeToStencilOp(op), v, ref) == PipeApply(op, v, ref)
    ensures PipeToStencilOp(op) == PipeToStencilOp(op2) ==> op == op2
    ensures MaliStencilCode(PipeToStencilOp(op)) < 8
  {
  }

  /** The Gallium stencil state of one face. */
  datatype PipeStencilState = PipeStencilState(
    enabled: bool,
    func: nat,
    failOp: PipeStencilOp,
    zfailOp: PipeStencilOp,
    zpassOp: PipeStencilOp,
    valuemask: Stencil8,
    writemask: Stencil8)

  /** The hardware stencil word of one face. */
  datatype MaliStencil = MaliStencil(
    mask: Stencil8,
    compareFunction: nat,
    stencilFail: MaliStencilOp,
    depthFail: MaliStencilOp,
    depthPass: MaliStencilOp)

  datatype ZsaState = ZsaState(
    stencilFront: MaliStencil,
    stencilBack: MaliStencil,
    stencilMaskFront: Stencil8,
    stencilMaskBack: Stencil8)

  /** `pan_pipe_to_stencil`; the compare-function translation lives outside
      this model and is passed in. */
  function PipeToStencil(s: PipeStencilState, translateCompare: nat -> nat): MaliStencil
  {
    MaliStencil(s.valuemask, translateCompare(s.func),
                PipeToStencilOp(s.failOp), PipeToStencilOp(s.zfailOp), PipeToStencilOp(s.zpassOp))
  }

  /** `panfrost_create_depth_stencil_state`. Alpha testing is lowered by the
      frontend and the depth-bounds test is not supported, both by assertion. */
  function CreateDepthStencilState(front: PipeStencilState, back: PipeStencilState,
                                   alphaEnabled: bool, boundsTest: bool, translateCompare: nat -> nat)
    : (r: ZsaState)
    requires !alphaEnabled && !boundsTest
    ensures r.stencilMaskFront == front.writemask
    ensures r.stencilMaskBack == if back.enabled then back.writemask else front.writemask
    ensures r.stencilFront.mask == front.valuemask && r.stencilBack.mask == back.valuemask
    ensures r.stencilFront.compareFunction == translateCompare(front.func)
    ensures r.stencilBack.compareFunction == translateCompare(back.func)
  {
    ZsaState(PipeToStencil(front, translateCompare), PipeToStencil(back, translateCompare),
             front.writemask, if back.enabled then back.writemask else front.writemask)
  }

  /** Each hardware face does to the stencil buffer exactly what its Gallium
      face asks for, and with the back face disabled both faces write
      through the same mask. */
  lemma FacesBehaveAsRequested(front: PipeStencilState, back: PipeStencilState,
                               translateCompare: nat -> nat, v: Stencil8, ref: Stencil8)
    ensures var r := CreateDepthStencilState(front, back, false, false, translateCompare);
      && MaliApply(r.stencilFront.stencilFail, v, ref) == PipeApply(front.failOp, v, ref)
      && MaliApply(r.stencilFront.depthFail, v, ref) == PipeApply(front.zfailOp, v, ref)
      && MaliApply(r.stencilFront.depthPass, v, ref) == PipeApply(front.zpassOp, v, ref)
      && MaliApply(r.stencilBack.stencilFail, v, ref) == PipeApply(back.failOp, v, ref)
      && MaliApply(r.stencilBack.depthFail, v, ref) == PipeApply(back.zfailOp, v, ref)
      && MaliApply(r.stencilBack.depthPass, v, ref) == PipeApply(back.zpassOp, v, ref)
      && (!back.enabled ==> r.stencilMaskBack == r.stencilMaskFront)
  {
    TranslationPreservesMeaning(front.failOp, front.failOp, v, ref);
    TranslationPreservesMeaning(front.zfailOp, front.zfailOp, v, ref);
    TranslationPreservesMeaning(front.zpassOp, front.zpassOp, v, ref);
    TranslationPreservesMeaning(back.failOp, back.failOp, v, ref);
    TranslationPreservesMeaning(back.zfailOp, back.zfailOp, v, ref);
    TranslationPreservesMeaning(back.zpassOp, back.zpassOp, v, ref);
  }
}
