/**
 * `run`: the simulation driver.
 *
 * After the configuration passes its check, the target resolution selects
 * the grid size, the initial density is loaded, and the frames are produced:
 * each frame runs `simulationFactor` simulation steps and then saves the
 * density. With a static flow field the field is generated once before the
 * first frame; with a dynamic one it is regenerated before every step, with
 * the noise's z offset advanced by a fixed amount per step. The driver is
 * modelled by the trace of kernel calls it makes; the kernels themselves are
 * the other modules, and `EvolveWithin` states what the sequence of
 * simulation steps does to the density.
 */
module Driver {
  import opened Wrappers
  import opened Vectors
  import opened Config
  import opened MassDistr
  import opened Advection
  import opened FlowField

  /** The two copies of the driver: the `sim_ctrl` module and the older monolithic `main`. */
  datatype DriverCopy = SimCtrl | Monolithic

  /** The z-offset advance per sub-step: 0.3 in `sim_ctrl`, 1 in `main`. */
  function ZStep(copy: DriverCopy): real
  {
    if copy == SimCtrl then 0.3 else 1.0
  }

  /** The midpoint and slope of the tone curve every frame is saved with. */
  const SaveMidpoint: real := 170.0
  const SaveSlope: real := 0.03

  /** Noise offsets sampled for a randomised flow field. */
  datatype Offsets = Offsets(x: real, y: real, z: real)

  /** The arguments of `generate_flow_field` after the buffers and the grid size: the scale and the three noise offsets. */
  datatype NoiseArgs = NoiseArgs(scale: real, x: real, y: real, z: real)

  /** A kernel call made by the driver. */
  datatype Event =
    | Generate(args: NoiseArgs)
    | Simulate
    | SaveFrame(frame: nat, midpoint: real, slope: real)

  /** Why a run stopped early. */
  datatype RunError =
    | InvalidConfiguration(config: ConfigError)
    | LoadFailed(load: LoadError)
    | SaveFailed(frame: nat)

  /** The resolution table as written: (width, height) per target resolution. */
  function ResolutionAsWritten(code: nat): (r: Option<(nat, nat)>)
    ensures r.Some? <==> code in SupportedResolutions
  {
    match code
    case 480 => Some((640, 460))
    case 720 => Some((1280, 720))
    case 1080 => Some((1920, 1080))
    case 1440 => Some((2560, 1440))
    case 2160 => Some((3840, 2160))
    case _ => None
  }

  /** The resolution table with 480 lines mapped to 640 by 480. */
  function Resolution(code: nat): (r: Option<(nat, nat)>)
    ensures r.Some? <==> code in SupportedResolutions
  {
    if code == 480 then Some((640, 480)) else ResolutionAsWritten(code)
  }

  /**
   * Every supported resolution names a grid `code` lines tall, at least 2
   * by 2, with a 4:3 (480) or 16:9 (the others) aspect ratio.
   */
  lemma ResolutionHeights(code: nat)
    requires code in SupportedResolutions
    ensures Resolution(code).Some? && Resolution(code).value.1 == code
    ensures Resolution(code).value.0 >= 2 && Resolution(code).value.1 >= 2
    ensures var (w, h) := Resolution(code).value;
      if code == 480 then 3 * w == 4 * h else 9 * w == 16 * h
  {
  }

  /** As written, the 480 entry is 460 lines tall, unlike every other entry. */
  lemma ResolutionAsWrittenHeight()
    ensures ResolutionAsWritten(480) == Some((640, 460))
    ensures ResolutionAsWritten(480).value.1 != 480
    ensures forall code :: code in SupportedResolutions && code != 480 ==>
      ResolutionAsWritten(code) == Resolution(code) && ResolutionAsWritten(code).value.1 == code
  {
  }

  /** A configuration that passes the check never reaches the `unreachable!` arm. */
  lemma CheckedResolutionInTable(c: Configuration, fs: FileSystem)
    requires Check(c, fs) == Pass
    ensures ResolutionAsWritten(c.targetResolution).Some? && Resolution(c.targetResolution).Some?
  {
  }

  /** The arguments of the first generation: the configured scale, and the sampled offsets when randomisation is on, otherwise zero ones. */
  function BaseArgs(c: Configuration, sampled: Offsets): NoiseArgs
  {
    if c.randomizeFlowField then NoiseArgs(c.flowFieldScale, sampled.x, sampled.y, sampled.z)
    else NoiseArgs(c.flowFieldScale, 0.0, 0.0, 0.0)
  }

  /** The generation of sub-step `k`: the base offsets with z advanced by `k * zStep`. */
  function GenerateAt(base: NoiseArgs, zStep: real, k: nat): Event
  {
    Generate(base.(z := base.z + (k as real) * zStep))
  }

  /** The calls of sub-step `k` (counted over the whole run). */
  function SubStep(dynamic: bool, base: NoiseArgs, zStep: real, k: nat): seq<Event>
  {
    if dynamic then [GenerateAt(base, zStep, k), Simulate] else [Simulate]
  }

  /** The calls of the first `n` sub-steps of frame `frame`. */
  function FrameSteps(dynamic: bool, base: NoiseArgs, zStep: real, factor: nat, frame: nat, n: nat): seq<Event>
  {
    if n == 0 then []
    else FrameSteps(dynamic, base, zStep, factor, frame, n - 1) + SubStep(dynamic, base, zStep, frame * factor + n - 1)
  }

  /** The calls of frame `frame`: its sub-steps, then saving the frame. */
  function FrameEvents(dynamic: bool, base: NoiseArgs, zStep: real, factor: nat, frame: nat): seq<Event>
  {
    FrameSteps(dynamic, base, zStep, factor, frame, factor) + [SaveFrame(frame, SaveMidpoint, SaveSlope)]
  }

  /** The calls of the first `n` frames. */
  function Frames(dynamic: bool, base: NoiseArgs, zStep: real, factor: nat, n: nat): seq<Event>
  {
    if n == 0 then [] else Frames(dynamic, base, zStep, factor, n - 1) + FrameEvents(dynamic, base, zStep, factor, n - 1)
  }

  /** The calls before the first frame: one generation for a static field, none for a dynamic one. */
  function Setup(dynamic: bool, base: NoiseArgs): seq<Event>
  {
    if dynamic then [] else [Generate(base)]
  }

  /** The whole schedule of a run in which every frame is saved. */
  function Schedule(c: Configuration, copy: DriverCopy, sampled: Offsets): seq<Event>
  {
    var base := BaseArgs(c, sampled);
    Setup(c.dynamizeFlowField, base) +
      Frames(c.dynamizeFlowField, base, ZStep(copy), c.simulationFactor, c.framesNumber)
  }

  /**
   * `run`, from a parsed configuration on. The filesystem, the decoded
   * density image (or its absence), the sampled offsets and the outcome of
   * saving each frame are inputs. The grid size is the entry of the table as
   * written (`Width`, `Height`), so at 480 lines the image must fit 640 by 460. The trace lists the kernel calls made: the
   * whole schedule when every frame is saved, and otherwise the schedule up
   * to and including the first save that fails, at which the run stops.
   */
  method Run(c: Configuration, fs: FileSystem, decoded: Option<LumaImage>, sampled: Offsets,
             copy: DriverCopy, saveSucceeds: nat -> bool)
    returns (trace: seq<Event>, r: Outcome<RunError>)
    requires decoded.Some? ==> decoded.value.Valid()
    ensures Check(c, fs).Fail? ==> trace == [] && r == Fail(InvalidConfiguration(Check(c, fs).error))
    ensures Check(c, fs) == Pass && (decoded.None? || !Fits(decoded.value, Width(c), Height(c))) ==>
      trace == [] && r == Fail(LoadFailed(if decoded.None? then OpenFailed else TooLarge))
    ensures r == Pass <==>
      Check(c, fs) == Pass && decoded.Some? && Fits(decoded.value, Width(c), Height(c)) &&
      forall f :: 0 <= f < c.framesNumber ==> saveSucceeds(f)
    ensures r == Pass ==> trace == Schedule(c, copy, sampled)
    ensures r.Fail? && r.error.SaveFailed? ==>
      var f := r.error.frame;
      && f < c.framesNumber && !saveSucceeds(f) && (forall g :: 0 <= g < f ==> saveSucceeds(g))
      && trace == Setup(c.dynamizeFlowField, BaseArgs(c, sampled)) +
                  Frames(c.dynamizeFlowField, BaseArgs(c, sampled), ZStep(copy), c.simulationFactor, f + 1)
  {
    var checked := Check(c, fs);
    if checked.Fail? {
      return [], Fail(InvalidConfiguration(checked.error));
    }
    CheckedResolutionInTable(c, fs);
    var (w, h) := ResolutionAsWritten(c.targetResolution).value;
    var loaded := LoadMassDistribution(decoded, w, h);
    if loaded.Failure? {
      return [], Fail(LoadFailed(loaded.error));
    }
    var massBuffer, flowField, noiseBuffer := AllocateBuffers(w, h);
    var base := BaseArgs(c, sampled);
    var setup := if c.dynamizeFlowField then [] else [Generate(base)];
    var events, failed := RunFrames(c.dynamizeFlowField, base, ZStep(copy), c.simulationFactor,
                                    c.framesNumber, saveSucceeds);
    trace := setup + events;
    if failed.Some? {
      return trace, Fail(SaveFailed(failed.value));
    }
    return trace, Pass;
  }

  /**
   * The frame loop: the calls of each frame in turn, stopping after the
   * first save that fails (whose frame is returned).
   */
  method RunFrames(dynamic: bool, base: NoiseArgs, zStep: real, factor: nat, count: nat,
                   saveSucceeds: nat -> bool)
    returns (events: seq<Event>, failed: Option<nat>)
    ensures failed.None? <==> forall f :: 0 <= f < count ==> saveSucceeds(f)
    ensures failed.None? ==> events == Frames(dynamic, base, zStep, factor, count)
    ensures failed.Some? ==>
      var f := failed.value;
      && f < count && !saveSucceeds(f) && (forall g :: 0 <= g < f ==> saveSucceeds(g))
      && events == Frames(dynamic, base, zStep, factor, f + 1)
  {
    events := [];
    var frame := 0;
    while frame < count
      invariant 0 <= frame <= count
      invariant events == Frames(dynamic, base, zStep, factor, frame)
      invariant forall g :: 0 <= g < frame ==> saveSucceeds(g)
    {
      var steps := RunSteps(dynamic, base, zStep, factor, frame);
      events := events + (steps + [SaveFrame(frame, SaveMidpoint, SaveSlope)]);
      if !saveSucceeds(frame) {
        return events, Some(frame);
      }
      frame := frame + 1;
    }
    return events, None;
  }

  /** The sub-step loop of frame `frame`: generate (dynamic field only), then simulate. */
  method RunSteps(dynamic: bool, base: NoiseArgs, zStep: real, factor: nat, frame: nat)
    returns (steps: seq<Event>)
    ensures steps == FrameSteps(dynamic, base, zStep, factor, frame, factor)
  {
    steps := [];
    var step := 0;
    while step < factor
      invariant 0 <= step <= factor
      invariant steps == FrameSteps(dynamic, base, zStep, factor, frame, step)
    {
      if dynamic {
        steps := steps + [GenerateAt(base, zStep, frame * factor + step)];
      }
      steps := steps + [Simulate];
      step := step + 1;
    }
  }

  /** The grid width the run uses: the as-written table's entry (0 when the resolution is not supported). */
  function Width(c: Configuration): nat
  {
    if ResolutionAsWritten(c.targetResolution).Some? then ResolutionAsWritten(c.targetResolution).value.0 else 0
  }

  /** The grid height the run uses: the as-written table's entry (0 when the resolution is not supported). */
  function Height(c: Configuration): nat
  {
    if ResolutionAsWritten(c.targetResolution).Some? then ResolutionAsWritten(c.targetResolution).value.1 else 0
  }

  /**
   * At target resolution 480 the run's grid is 640 by 460, so an image
   * taller than 460 lines is rejected even though it fits the 480-line frame
   * the resolution names; at every other supported resolution the grid is
   * `code` lines tall.
   */
  lemma RunGridAsWritten(c: Configuration, img: LumaImage)
    requires c.targetResolution in SupportedResolutions
    ensures c.targetResolution == 480 ==> Width(c) == 640 && Height(c) == 460
    ensures c.targetResolution == 480 && 460 < img.height <= 480 ==>
      !Fits(img, Width(c), Height(c)) && img.height <= Resolution(480).value.1
    ensures c.targetResolution != 480 ==> Height(c) == c.targetResolution
  {
    ResolutionAsWrittenHeight();
  }

  /**
   * The working buffers of a run, one cell per grid cell: the scratch
   * density buffer, the flow field and the noise buffer, all zero.
   */
  method AllocateBuffers(w: nat, h: nat) returns (massBuffer: array<real>, flowField: array<Vec2D>, noiseBuffer: array<real>)
    ensures fresh(massBuffer) && fresh(flowField) && fresh(noiseBuffer)
    ensures massBuffer[..] == seq(w * h, _ => 0.0)
    ensures flowField.Length == w * h && forall i :: 0 <= i < flowField.Length ==> flowField[i] == Zero
    ensures noiseBuffer.Length == w * h && forall i :: 0 <= i < noiseBuffer.Length ==> noiseBuffer[i] == 0.0
  {
    massBuffer := new real[w * h](_ => 0.0);
    flowField := new Vec2D[w * h](_ => Zero);
    noiseBuffer := new real[w * h](_ => 0.0);
  }

  /** The kinds of kernel call, for counting them in a trace. */
  datatype Kind = GenerateCall | SimulateCall | SaveCall

  predicate IsKind(e: Event, k: Kind)
  {
    match k
    case GenerateCall => e.Generate?
    case SimulateCall => e.Simulate?
    case SaveCall => e.SaveFrame?
  }

  /** The calls of kind `k` in `s`, in order. */
  function Calls(s: seq<Event>, k: Kind): (r: seq<Event>)
  {
    if |s| == 0 then []
    else Calls(s[..|s| - 1], k) + (if IsKind(s[|s| - 1], k) then [s[|s| - 1]] else [])
  }

  /** Selecting calls distributes over concatenation. */
  lemma {:induction false} CallsAppend(a: seq<Event>, b: seq<Event>, k: Kind)
    ensures Calls(a + b, k) == Calls(a, k) + Calls(b, k)
  {
    if |b| > 0 {
      var b' := b[..|b| - 1];
      assert (a + b)[..|a + b| - 1] == a + b';
      CallsAppend(a, b', k);
    } else {
      assert a + b == a;
    }
  }

  /** A single call is selected exactly when it has the kind. */
  lemma CallsSingle(e: Event, k: Kind)
    ensures Calls([e], k) == if IsKind(e, k) then [e] else []
  {
    assert [e][..0] == [];
  }

  /** One sub-step: one simulation, no save, and a generation only for a dynamic field. */
  lemma SubStepCalls(dynamic: bool, base: NoiseArgs, zStep: real, k: nat)
    ensures Calls(SubStep(dynamic, base, zStep, k), SimulateCall) == [Simulate]
    ensures Calls(SubStep(dynamic, base, zStep, k), SaveCall) == []
    ensures Calls(SubStep(dynamic, base, zStep, k), GenerateCall) ==
      if dynamic then [GenerateAt(base, zStep, k)] else []
  {
    var g := GenerateAt(base, zStep, k);
    CallsSingle(Simulate, SimulateCall);
    CallsSingle(Simulate, SaveCall);
    CallsSingle(Simulate, GenerateCall);
    if dynamic {
      assert SubStep(dynamic, base, zStep, k) == [g] + [Simulate];
      CallsSingle(g, SimulateCall);
      CallsSingle(g, SaveCall);
      CallsSingle(g, GenerateCall);
      CallsAppend([g], [Simulate], SimulateCall);
      CallsAppend([g], [Simulate], SaveCall);
      CallsAppend([g], [Simulate], GenerateCall);
    }
  }

  /** `g` lists the generations of consecutive sub-steps, starting at sub-step `from`. */
  ghost predicate GenerationsFrom(g: seq<Event>, base: NoiseArgs, zStep: real, from: nat)
  {
    forall s :: 0 <= s < |g| ==> g[s] == GenerateAt(base, zStep, from + s)
  }

  /**
   * `g` is what the generations of `count` consecutive sub-steps starting at
   * sub-step `from` look like: those generations for a dynamic field, none
   * for a static one.
   */
  ghost predicate GenerationsOf(g: seq<Event>, dynamic: bool, base: NoiseArgs, zStep: real, from: nat, count: nat)
  {
    if dynamic then |g| == count && GenerationsFrom(g, base, zStep, from) else g == []
  }

  /** `sv` lists the saves of consecutive frames, starting at frame `from`. */
  ghost predicate SavesFrom(sv: seq<Event>, from: nat)
  {
    forall f :: 0 <= f < |sv| ==> sv[f] == SaveFrame(from + f, SaveMidpoint, SaveSlope)
  }

  /** Two runs of consecutive generations, the second starting where the first ends, form one run. */
  lemma GenerationsAppend(a: seq<Event>, b: seq<Event>, base: NoiseArgs, zStep: real, from: nat)
    requires GenerationsFrom(a, base, zStep, from) && GenerationsFrom(b, base, zStep, from + |a|)
    ensures GenerationsFrom(a + b, base, zStep, from)
  {
    forall s | 0 <= s < |a + b|
      ensures (a + b)[s] == GenerateAt(base, zStep, from + s)
    {
      if s >= |a| {
        assert (a + b)[s] == b[s - |a|];
      }
    }
  }

  /** A run of consecutive saves followed by the save of the next frame is one run. */
  lemma SavesAppend(a: seq<Event>, from: nat)
    requires SavesFrom(a, from)
    ensures SavesFrom(a + [SaveFrame(from + |a|, SaveMidpoint, SaveSlope)], from)
  {
  }

  /** The first `n` sub-steps of a frame make `n` simulations and no save. */
  lemma {:induction false} FrameStepsSimulations(dynamic: bool, base: NoiseArgs, zStep: real, factor: nat, frame: nat, n: nat)
    ensures |Calls(FrameSteps(dynamic, base, zStep, factor, frame, n), SimulateCall)| == n
    ensures Calls(FrameSteps(dynamic, base, zStep, factor, frame, n), SaveCall) == []
  {
    if n > 0 {
      FrameStepsSimulations(dynamic, base, zStep, factor, frame, n - 1);
      SimulatingSubStep(dynamic, base, zStep, factor, frame, n);
    }
  }

  /** Adding sub-step `n - 1` of a frame adds one simulation and no save. */
  lemma SimulatingSubStep(dynamic: bool, base: NoiseArgs, zStep: real, factor: nat, frame: nat, n: nat)
    requires n > 0
    requires |Calls(FrameSteps(dynamic, base, zStep, factor, frame, n - 1), SimulateCall)| == n - 1
    requires Calls(FrameSteps(dynamic, base, zStep, factor, frame, n - 1), SaveCall) == []
    ensures |Calls(FrameSteps(dynamic, base, zStep, factor, frame, n), SimulateCall)| == n
    ensures Calls(FrameSteps(dynamic, base, zStep, factor, frame, n), SaveCall) == []
  {
    var prev := FrameSteps(dynamic, base, zStep, factor, frame, n - 1);
    var last := SubStep(dynamic, base, zStep, frame * factor + n - 1);
    SubStepCalls(dynamic, base, zStep, frame * factor + n - 1);
    AppendOneSimulation(prev, last, n - 1);
  }

  /** Appending calls with one simulation and no save to `a` adds one simulation and no save. */
  lemma AppendOneSimulation(a: seq<Event>, b: seq<Event>, n: nat)
    requires |Calls(a, SimulateCall)| == n && Calls(a, SaveCall) == []
    requires Calls(b, SimulateCall) == [Simulate] && Calls(b, SaveCall) == []
    ensures |Calls(a + b, SimulateCall)| == n + 1 && Calls(a + b, SaveCall) == []
  {
    CallsAppend(a, b, SimulateCall);
    CallsAppend(a, b, SaveCall);
  }

  /** The first `n` sub-steps of a frame make the generations of those sub-steps (dynamic field only). */
  lemma {:induction false} FrameStepsGenerations(dynamic: bool, base: NoiseArgs, zStep: real, factor: nat, frame: nat, n: nat)
    ensures GenerationsOf(Calls(FrameSteps(dynamic, base, zStep, factor, frame, n), GenerateCall),
                          dynamic, base, zStep, frame * factor, n)
  {
    if n > 0 {
      FrameStepsGenerations(dynamic, base, zStep, factor, frame, n - 1);
      if dynamic {
        DynamicSubStep(base, zStep, factor, frame, n);
      } else {
        StaticSubStep(base, zStep, factor, frame, n);
      }
    }
  }

  /** Adding sub-step `n - 1` of a dynamic frame adds its generation. */
  lemma DynamicSubStep(base: NoiseArgs, zStep: real, factor: nat, frame: nat, n: nat)
    requires n > 0
    requires GenerationsOf(Calls(FrameSteps(true, base, zStep, factor, frame, n - 1), GenerateCall),
                           true, base, zStep, frame * factor, n - 1)
    ensures GenerationsOf(Calls(FrameSteps(true, base, zStep, factor, frame, n), GenerateCall),
                          true, base, zStep, frame * factor, n)
  {
    var from := frame * factor;
    var prev := FrameSteps(true, base, zStep, factor, frame, n - 1);
    var last := SubStep(true, base, zStep, from + n - 1);
    SubStepCalls(true, base, zStep, from + n - 1);
    CallsAppend(prev, last, GenerateCall);
    GenerationsAppend(Calls(prev, GenerateCall), Calls(last, GenerateCall), base, zStep, from);
  }

  /** Adding sub-step `n - 1` of a static frame adds no generation. */
  lemma StaticSubStep(base: NoiseArgs, zStep: real, factor: nat, frame: nat, n: nat)
    requires n > 0
    requires Calls(FrameSteps(false, base, zStep, factor, frame, n - 1), GenerateCall) == []
    ensures Calls(FrameSteps(false, base, zStep, factor, frame, n), GenerateCall) == []
  {
    var prev := FrameSteps(false, base, zStep, factor, frame, n - 1);
    var last := SubStep(false, base, zStep, frame * factor + n - 1);
    SubStepCalls(false, base, zStep, frame * factor + n - 1);
    CallsAppend(prev, last, GenerateCall);
  }

  /**
   * The sub-steps of a frame with a dynamic field alternate: generation of
   * sub-step `from + j` at position `2j`, then a simulation at `2j + 1`.
   */
  lemma {:induction false} DynamicStepsAlternate(base: NoiseArgs, zStep: real, factor: nat, frame: nat, n: nat)
    ensures var s := FrameSteps(true, base, zStep, factor, frame, n);
      && |s| == 2 * n
      && forall i :: 0 <= i < |s| ==>
           s[i] == if i % 2 == 0 then GenerateAt(base, zStep, frame * factor + i / 2) else Simulate
  {
    if n > 0 {
      var prev := FrameSteps(true, base, zStep, factor, frame, n - 1);
      var s := FrameSteps(true, base, zStep, factor, frame, n);
      DynamicStepsAlternate(base, zStep, factor, frame, n - 1);
      assert s == prev + [GenerateAt(base, zStep, frame * factor + n - 1), Simulate];
      forall i | 0 <= i < |s|
        ensures s[i] == if i % 2 == 0 then GenerateAt(base, zStep, frame * factor + i / 2) else Simulate
      {
        if i == 2 * n - 2 {
          assert i % 2 == 0 && i / 2 == n - 1;
        } else if i == 2 * n - 1 {
          assert i % 2 == 1;
        } else {
          assert s[i] == prev[i];
        }
      }
    }
  }

  /** The sub-steps of a frame with a static field are simulations only. */
  lemma {:induction false} StaticStepsSimulate(base: NoiseArgs, zStep: real, factor: nat, frame: nat, n: nat)
    ensures var s := FrameSteps(false, base, zStep, factor, frame, n);
      |s| == n && forall i :: 0 <= i < |s| ==> s[i] == Simulate
  {
    if n > 0 {
      StaticStepsSimulate(base, zStep, factor, frame, n - 1);
    }
  }

  /** One frame makes `factor` simulations. */
  lemma FrameSimulations(dynamic: bool, base: NoiseArgs, zStep: real, factor: nat, frame: nat)
    ensures |Calls(FrameEvents(dynamic, base, zStep, factor, frame), SimulateCall)| == factor
  {
    var save := SaveFrame(frame, SaveMidpoint, SaveSlope);
    FrameStepsSimulations(dynamic, base, zStep, factor, frame, factor);
    CallsSingle(save, SimulateCall);
    CountStep(FrameSteps(dynamic, base, zStep, factor, frame, factor), [save], SimulateCall, factor, 0);
  }

  /** One frame makes a single save, of that frame, and it is the frame's last call. */
  lemma FrameSave(dynamic: bool, base: NoiseArgs, zStep: real, factor: nat, frame: nat)
    ensures Calls(FrameEvents(dynamic, base, zStep, factor, frame), SaveCall) == [SaveFrame(frame, SaveMidpoint, SaveSlope)]
    ensures var e := FrameEvents(dynamic, base, zStep, factor, frame);
      e[|e| - 1] == SaveFrame(frame, SaveMidpoint, SaveSlope)
  {
    var save := SaveFrame(frame, SaveMidpoint, SaveSlope);
    FrameStepsSimulations(dynamic, base, zStep, factor, frame, factor);
    CallsSingle(save, SaveCall);
    CallsAppend(FrameSteps(dynamic, base, zStep, factor, frame, factor), [save], SaveCall);
  }

  /** One frame makes the generations of its sub-steps (dynamic field only). */
  lemma FrameGenerations(dynamic: bool, base: NoiseArgs, zStep: real, factor: nat, frame: nat)
    ensures GenerationsOf(Calls(FrameEvents(dynamic, base, zStep, factor, frame), GenerateCall),
                          dynamic, base, zStep, frame * factor, factor)
  {
    var save := SaveFrame(frame, SaveMidpoint, SaveSlope);
    FrameStepsGenerations(dynamic, base, zStep, factor, frame, factor);
    CallsSingle(save, GenerateCall);
    CallsAppend(FrameSteps(dynamic, base, zStep, factor, frame, factor), [save], GenerateCall);
  }

  /** Over `n` frames: `n * factor` simulations. */
  lemma {:induction false} FramesSimulations(dynamic: bool, base: NoiseArgs, zStep: real, factor: nat, n: nat)
    ensures |Calls(Frames(dynamic, base, zStep, factor, n), SimulateCall)| == n * factor
  {
    if n > 0 {
      FramesSimulations(dynamic, base, zStep, factor, n - 1);
      FramesSimulationsStep(dynamic, base, zStep, factor, n);
    }
  }

  /** Adding frame `n - 1` to the first `n - 1` frames adds `factor` simulations. */
  lemma FramesSimulationsStep(dynamic: bool, base: NoiseArgs, zStep: real, factor: nat, n: nat)
    requires n > 0
    requires |Calls(Frames(dynamic, base, zStep, factor, n - 1), SimulateCall)| == (n - 1) * factor
    ensures |Calls(Frames(dynamic, base, zStep, factor, n), SimulateCall)| == n * factor
  {
    FrameSimulations(dynamic, base, zStep, factor, n - 1);
    CountStep(Frames(dynamic, base, zStep, factor, n - 1), FrameEvents(dynamic, base, zStep, factor, n - 1),
              SimulateCall, (n - 1) * factor, factor);
    assert n * factor == (n - 1) * factor + factor;
  }

  /** `n` blocks of `factor` are `n - 1` blocks and one more. */
  lemma MulPred(n: nat, factor: nat)
    requires n > 0
    ensures n * factor == (n - 1) * factor + factor
  {
  }

  /** Counts of a kind add up over a concatenation. */
  lemma CountStep(a: seq<Event>, b: seq<Event>, k: Kind, ca: nat, cb: nat)
    requires |Calls(a, k)| == ca && |Calls(b, k)| == cb
    ensures |Calls(a + b, k)| == ca + cb
  {
    CallsAppend(a, b, k);
  }

  /** Over `n` frames: one save per frame, in frame order, with the fixed tone curve. */
  lemma {:induction false} FramesSaves(dynamic: bool, base: NoiseArgs, zStep: real, factor: nat, n: nat)
    ensures var sv := Calls(Frames(dynamic, base, zStep, factor, n), SaveCall);
      |sv| == n && SavesFrom(sv, 0)
  {
    if n > 0 {
      FramesSaves(dynamic, base, zStep, factor, n - 1);
      FramesSavesStep(dynamic, base, zStep, factor, n);
    }
  }

  /** Adding frame `n - 1` to the first `n - 1` frames adds the save of frame `n - 1`. */
  lemma FramesSavesStep(dynamic: bool, base: NoiseArgs, zStep: real, factor: nat, n: nat)
    requires n > 0
    requires var sv := Calls(Frames(dynamic, base, zStep, factor, n - 1), SaveCall);
      |sv| == n - 1 && SavesFrom(sv, 0)
    ensures var sv := Calls(Frames(dynamic, base, zStep, factor, n), SaveCall);
      |sv| == n && SavesFrom(sv, 0)
  {
    FrameSave(dynamic, base, zStep, factor, n - 1);
    SavesStep(Frames(dynamic, base, zStep, factor, n - 1), FrameEvents(dynamic, base, zStep, factor, n - 1), n - 1);
  }

  /** The saves of `a` (frames 0 to n - 1) followed by those of `b` (just frame n) are the saves of frames 0 to n. */
  lemma SavesStep(a: seq<Event>, b: seq<Event>, n: nat)
    requires |Calls(a, SaveCall)| == n && SavesFrom(Calls(a, SaveCall), 0)
    requires Calls(b, SaveCall) == [SaveFrame(n, SaveMidpoint, SaveSlope)]
    ensures |Calls(a + b, SaveCall)| == n + 1 && SavesFrom(Calls(a + b, SaveCall), 0)
  {
    CallsAppend(a, b, SaveCall);
    SavesAppend(Calls(a, SaveCall), 0);
  }

  /**
   * Over `n` frames with a dynamic field: one generation per sub-step `k`
   * at z offset `base.z + k * zStep`; with a static field none.
   */
  lemma {:induction false} FramesGenerations(dynamic: bool, base: NoiseArgs, zStep: real, factor: nat, n: nat)
    ensures GenerationsOf(Calls(Frames(dynamic, base, zStep, factor, n), GenerateCall), dynamic, base, zStep, 0, n * factor)
  {
    if n > 0 {
      FramesGenerations(dynamic, base, zStep, factor, n - 1);
      FramesGenerationsStep(dynamic, base, zStep, factor, n);
    }
  }

  /** Adding frame `n - 1` to the first `n - 1` frames adds the generations of its sub-steps. */
  lemma FramesGenerationsStep(dynamic: bool, base: NoiseArgs, zStep: real, factor: nat, n: nat)
    requires n > 0
    requires GenerationsOf(Calls(Frames(dynamic, base, zStep, factor, n - 1), GenerateCall),
                           dynamic, base, zStep, 0, (n - 1) * factor)
    ensures GenerationsOf(Calls(Frames(dynamic, base, zStep, factor, n), GenerateCall), dynamic, base, zStep, 0, n * factor)
  {
    if dynamic {
      DynamicFramesStep(base, zStep, factor, n);
    } else {
      StaticFramesStep(base, zStep, factor, n);
    }
  }

  /** `FramesGenerationsStep` for a dynamic field. */
  lemma DynamicFramesStep(base: NoiseArgs, zStep: real, factor: nat, n: nat)
    requires n > 0
    requires GenerationsOf(Calls(Frames(true, base, zStep, factor, n - 1), GenerateCall),
                           true, base, zStep, 0, (n - 1) * factor)
    ensures GenerationsOf(Calls(Frames(true, base, zStep, factor, n), GenerateCall), true, base, zStep, 0, n * factor)
  {
    FrameGenerations(true, base, zStep, factor, n - 1);
    MulPred(n, factor);
    GenerationsStep(Frames(true, base, zStep, factor, n - 1), FrameEvents(true, base, zStep, factor, n - 1),
                    true, base, zStep, (n - 1) * factor, factor);
  }

  /** `FramesGenerationsStep` for a static field. */
  lemma StaticFramesStep(base: NoiseArgs, zStep: real, factor: nat, n: nat)
    requires n > 0
    requires Calls(Frames(false, base, zStep, factor, n - 1), GenerateCall) == []
    ensures Calls(Frames(false, base, zStep, factor, n), GenerateCall) == []
  {
    FrameGenerations(false, base, zStep, factor, n - 1);
    GenerationsStep(Frames(false, base, zStep, factor, n - 1), FrameEvents(false, base, zStep, factor, n - 1),
                    false, base, zStep, (n - 1) * factor, factor);
  }

  /** The generations of `a` (sub-steps 0 to ca - 1) followed by those of `b` (the next cb) are those of sub-steps 0 to ca + cb - 1. */
  lemma GenerationsStep(a: seq<Event>, b: seq<Event>, dynamic: bool, base: NoiseArgs, zStep: real, ca: nat, cb: nat)
    requires GenerationsOf(Calls(a, GenerateCall), dynamic, base, zStep, 0, ca)
    requires GenerationsOf(Calls(b, GenerateCall), dynamic, base, zStep, ca, cb)
    ensures GenerationsOf(Calls(a + b, GenerateCall), dynamic, base, zStep, 0, ca + cb)
  {
    CallsAppend(a, b, GenerateCall);
    if dynamic {
      GenerationsAppend(Calls(a, GenerateCall), Calls(b, GenerateCall), base, zStep, 0);
    }
  }

  /** The whole schedule makes `framesNumber * simulationFactor` simulations. */
  lemma ScheduleSimulations(c: Configuration, copy: DriverCopy, sampled: Offsets)
    ensures |Calls(Schedule(c, copy, sampled), SimulateCall)| == c.framesNumber * c.simulationFactor
  {
    var base := BaseArgs(c, sampled);
    var setup := Setup(c.dynamizeFlowField, base);
    var frames := Frames(c.dynamizeFlowField, base, ZStep(copy), c.simulationFactor, c.framesNumber);
    FramesSimulations(c.dynamizeFlowField, base, ZStep(copy), c.simulationFactor, c.framesNumber);
    if !c.dynamizeFlowField {
      CallsSingle(Generate(base), SimulateCall);
    }
    CountStep(setup, frames, SimulateCall, 0, c.framesNumber * c.simulationFactor);
  }

  /** The whole schedule saves every frame once, in frame order, with the fixed tone curve. */
  lemma ScheduleSaves(c: Configuration, copy: DriverCopy, sampled: Offsets)
    ensures var sv := Calls(Schedule(c, copy, sampled), SaveCall);
      |sv| == c.framesNumber && SavesFrom(sv, 0)
  {
    var base := BaseArgs(c, sampled);
    var setup := Setup(c.dynamizeFlowField, base);
    var frames := Frames(c.dynamizeFlowField, base, ZStep(copy), c.simulationFactor, c.framesNumber);
    FramesSaves(c.dynamizeFlowField, base, ZStep(copy), c.simulationFactor, c.framesNumber);
    if !c.dynamizeFlowField {
      CallsSingle(Generate(base), SaveCall);
    }
    CallsAppend(setup, frames, SaveCall);
    assert Calls(setup, SaveCall) == [];
  }

  /**
   * The generations of the whole schedule: with a static field a single one,
   * with the base offsets, before everything else; with a dynamic field one
   * per sub-step `k` at z offset `base.z + k * zStep`.
   */
  lemma ScheduleGenerations(c: Configuration, copy: DriverCopy, sampled: Offsets)
    ensures var g := Calls(Schedule(c, copy, sampled), GenerateCall);
      if c.dynamizeFlowField
      then |g| == c.framesNumber * c.simulationFactor && GenerationsFrom(g, BaseArgs(c, sampled), ZStep(copy), 0)
      else g == [Generate(BaseArgs(c, sampled))]
    ensures !c.dynamizeFlowField ==>
      |Schedule(c, copy, sampled)| > 0 && Schedule(c, copy, sampled)[0] == Generate(BaseArgs(c, sampled))
  {
    var base := BaseArgs(c, sampled);
    var setup := Setup(c.dynamizeFlowField, base);
    var frames := Frames(c.dynamizeFlowField, base, ZStep(copy), c.simulationFactor, c.framesNumber);
    FramesGenerations(c.dynamizeFlowField, base, ZStep(copy), c.simulationFactor, c.framesNumber);
    CallsAppend(setup, frames, GenerateCall);
    if !c.dynamizeFlowField {
      CallsSingle(Generate(base), GenerateCall);
      assert (setup + frames)[0] == Generate(base);
    } else {
      assert setup + frames == frames;
    }
  }

  /**
   * The arguments of every generation in a run: the configured scale; the
   * sampled x and y offsets when randomisation is on and 0 otherwise; and as
   * z offset the sampled one (or 0) advanced by `k * zStep` at the `k`-th
   * generation of a dynamic field, unadvanced for the single generation of a
   * static one.
   */
  lemma GenerationArguments(c: Configuration, copy: DriverCopy, sampled: Offsets)
    ensures var g := Calls(Schedule(c, copy, sampled), GenerateCall);
      var (x, y, z) := if c.randomizeFlowField then (sampled.x, sampled.y, sampled.z) else (0.0, 0.0, 0.0);
      forall k :: 0 <= k < |g| ==>
        g[k] == Generate(NoiseArgs(c.flowFieldScale, x, y, if c.dynamizeFlowField then z + (k as real) * ZStep(copy) else z))
  {
    ScheduleGenerations(c, copy, sampled);
  }

  /**
   * The two copies of the driver differ only in the dynamic z step: when a
   * dynamic run has at least two sub-steps, the second generation is at
   * `z + 0.3` in one and at `z + 1` in the other; static runs coincide.
   */
  lemma CopiesDiffer(c: Configuration, sampled: Offsets)
    ensures !c.dynamizeFlowField ==> Schedule(c, SimCtrl, sampled) == Schedule(c, Monolithic, sampled)
    ensures c.dynamizeFlowField && c.framesNumber * c.simulationFactor >= 2 ==>
      var g1 := Calls(Schedule(c, SimCtrl, sampled), GenerateCall);
      var g2 := Calls(Schedule(c, Monolithic, sampled), GenerateCall);
      |g1| >= 2 && |g2| >= 2 &&
      var b := BaseArgs(c, sampled);
      g1[1] == Generate(b.(z := b.z + 0.3)) &&
      g2[1] == Generate(b.(z := b.z + 1.0))
  {
    ScheduleGenerations(c, SimCtrl, sampled);
    ScheduleGenerations(c, Monolithic, sampled);
    if !c.dynamizeFlowField {
      StaticIgnoresZStep(BaseArgs(c, sampled), c.simulationFactor, c.framesNumber);
    }
  }

  /** A static schedule does not depend on the z step. */
  lemma {:induction false} StaticIgnoresZStep(base: NoiseArgs, factor: nat, n: nat)
    ensures Frames(false, base, 0.3, factor, n) == Frames(false, base, 1.0, factor, n)
  {
    if n > 0 {
      StaticIgnoresZStep(base, factor, n - 1);
      StaticStepsIgnoreZStep(base, factor, n - 1, factor);
    }
  }

  /** The sub-steps of a static frame do not depend on the z step. */
  lemma {:induction false} StaticStepsIgnoreZStep(base: NoiseArgs, factor: nat, frame: nat, n: nat)
    ensures FrameSteps(false, base, 0.3, factor, frame, n) == FrameSteps(false, base, 1.0, factor, frame, n)
  {
    if n > 0 {
      StaticStepsIgnoreZStep(base, factor, frame, n - 1);
    }
  }

  /**
   * `k` simulation steps with the flow fields `flows`, each one an advection
   * pass followed by the swap of the density and the scratch buffer: the
   * resulting (density, scratch) pair.
   */
  function Evolve(d: seq<real>, b: seq<real>, flows: seq<seq<Vec2D>>, w: nat, h: nat): (r: (seq<real>, seq<real>))
    requires w > 0 && |d| == w * h && |b| == w * h
    requires forall k :: 0 <= k < |flows| ==> |flows[k]| == w * h
    ensures |r.0| == w * h && |r.1| == w * h
  {
    if |flows| == 0 then (d, b)
    else
      var (d', b') := Evolve(d, b, flows[..|flows| - 1], w, h);
      (Advect(d', b', flows[|flows| - 1], w, h), d')
  }

  /**
   * Whatever the number of steps, a density that starts (with its scratch
   * buffer) in [lo, hi] stays in [lo, hi] as long as every flow field has
   * components in [-1, 1].
   */
  lemma {:induction false} EvolveWithin(d: seq<real>, b: seq<real>, flows: seq<seq<Vec2D>>, w: nat, h: nat,
                                        lo: real, hi: real)
    requires w > 0 && |d| == w * h && |b| == w * h
    requires forall k :: 0 <= k < |flows| ==> |flows[k]| == w * h && UnitBounded(flows[k])
    requires Within(d, lo, hi) && Within(b, lo, hi)
    ensures Within(Evolve(d, b, flows, w, h).0, lo, hi) && Within(Evolve(d, b, flows, w, h).1, lo, hi)
  {
    if |flows| > 0 {
      var (d', b') := Evolve(d, b, flows[..|flows| - 1], w, h);
      EvolveWithin(d, b, flows[..|flows| - 1], w, h, lo, hi);
      AdvectWithin(d', b', flows[|flows| - 1], w, h, lo, hi);
    }
  }

  /** A normalised flow field (positive maximum) has components in [-1, 1]. */
  lemma NormalisedUnitBounded(len: Vec2D -> real, s: seq<Vec2D>)
    requires IsLength(len) && MaxLength(len, s) > 0.0
    ensures UnitBounded(Normalised(s, MaxLength(len, s)))
  {
    var r := Normalised(s, MaxLength(len, s));
    NormalisedUnit(len, s);
    forall i | 0 <= i < |r|
      ensures -1.0 <= r[i].x <= 1.0 && -1.0 <= r[i].y <= 1.0
    {
      ComponentsOfShortVector(len, r[i]);
    }
  }

  /**
   * The densities of a run stay in [0, 1]: the loaded density lies there,
   * the scratch buffer starts at zero, and every generated flow field is
   * normalised, so no simulation step leaves the range.
   */
  lemma RunDensityInUnitRange(img: LumaImage, w: nat, h: nat, len: Vec2D -> real,
                              fields: seq<seq<Vec2D>>)
    requires img.Valid() && Fits(img, w, h) && w > 0 && IsLength(len)
    requires forall k :: 0 <= k < |fields| ==> |fields[k]| == w * h && MaxLength(len, fields[k]) > 0.0
    ensures var flows := seq(|fields|, k requires 0 <= k < |fields| => Normalised(fields[k], MaxLength(len, fields[k])));
      Within(Evolve(Placed(img, w, h), seq(w * h, _ => 0.0), flows, w, h).0, 0.0, 1.0)
  {
    var flows := seq(|fields|, k requires 0 <= k < |fields| => Normalised(fields[k], MaxLength(len, fields[k])));
    forall k | 0 <= k < |flows|
      ensures |flows[k]| == w * h && UnitBounded(flows[k])
    {
      NormalisedUnitBounded(len, fields[k]);
    }
    PlacedRange(img, w, h);
    EvolveWithin(Placed(img, w, h), seq(w * h, _ => 0.0), flows, w, h, 0.0, 1.0);
  }
}
