/**
 * `convertToGaggiuinoSchema`: the parsed step records become the phases of a
 * Gaggiuino profile, one phase per step and in the same order, under fixed
 * top-level settings.
 */
module SchemaMapper {
  import opened Wrappers
  import opened JsValue

  datatype PhaseType = FLOW | PRESSURE

  datatype Curve = INSTANT | EASE_IN_OUT

  datatype Target = Target(end: Value, curve: Curve)

  /** The four early-exit thresholds a phase carries when its step's `exit_if` is truthy. */
  datatype Bounds = Bounds(pressureAbove: Value, pressureBelow: Value, flowAbove: Value, flowBelow: Value)

  /** `time` is always there; `bounds` stands for the four keys added together, or none of them. */
  datatype StopConditions = StopConditions(time: Number, bounds: Option<Bounds>)

  datatype Phase = Phase(
    skip: bool,
    phaseType: PhaseType,
    target: Target,
    restriction: Value,
    stopConditions: StopConditions)

  datatype GlobalStopConditions = GlobalStopConditions(time: int, weight: int, waterPumped: int)

  /** The converted profile; `id` is always None, written as `null`. */
  datatype Profile = Profile(
    id: Option<int>,
    name: string,
    globalStopConditions: GlobalStopConditions,
    waterTemperature: int,
    recipe: seq<Value>,
    phases: seq<Phase>)

  const DEFAULT_GLOBAL_STOP := GlobalStopConditions(0, 40, 0)
  const WATER_TEMPERATURE := 93
  const MS_PER_SECOND := 1000.0

  /** The step properties a phase is built from. */
  const STEP_KEYS := {
    "pump", "flow", "pressure", "transition", "seconds", "exit_if",
    "exit_pressure_over", "exit_pressure_under", "exit_flow_over", "exit_flow_under"
  }

  /** The phase built from one step record. */
  function PhaseOf(step: Record): (phase: Phase)
    ensures !phase.skip
    ensures phase.phaseType == FLOW <==> Get(step, "pump") == Str("flow")
    ensures phase.target.curve == INSTANT <==> Get(step, "transition") == Str("fast")
    ensures phase.stopConditions.bounds.Some? <==> Truthy(Get(step, "exit_if"))
    ensures phase.stopConditions.bounds.Some? ==>
      phase.stopConditions.bounds.value ==
        Bounds(Get(step, "exit_pressure_over"), Get(step, "exit_pressure_under"),
               Get(step, "exit_flow_over"), Get(step, "exit_flow_under"))
  {
    var isFlow := Get(step, "pump") == Str("flow");
    Phase(
      skip := false,
      phaseType := if isFlow then FLOW else PRESSURE,
      target := Target(
        end := if isFlow then Get(step, "flow") else Get(step, "pressure"),
        curve := if Get(step, "transition") == Str("fast") then INSTANT else EASE_IN_OUT),
      restriction := if isFlow then Get(step, "pressure") else Get(step, "flow"),
      stopConditions := StopConditions(
        time := Times(ToNumber(Get(step, "seconds")), MS_PER_SECOND),
        bounds :=
          if Truthy(Get(step, "exit_if")) then
            Some(Bounds(Get(step, "exit_pressure_over"), Get(step, "exit_pressure_under"),
                        Get(step, "exit_flow_over"), Get(step, "exit_flow_under")))
          else None))
  }

  /** The flow value a phase was built with: its target for a flow phase, its restriction otherwise. */
  function PhaseFlow(phase: Phase): Value {
    if phase.phaseType == FLOW then phase.target.end else phase.restriction
  }

  /** The pressure value a phase was built with. */
  function PhasePressure(phase: Phase): Value {
    if phase.phaseType == FLOW then phase.restriction else phase.target.end
  }

  /** Target and restriction swap with the phase type, and neither the flow nor the pressure is lost. */
  lemma PhaseKeepsFlowAndPressure(step: Record)
    ensures PhaseFlow(PhaseOf(step)) == Get(step, "flow")
    ensures PhasePressure(PhaseOf(step)) == Get(step, "pressure")
  {
  }

  /** The stop time is the step's seconds in milliseconds; a step without seconds gets NaN. */
  lemma PhaseTime(step: Record)
    ensures Get(step, "seconds").Num? && Get(step, "seconds").n.Finite? ==>
      PhaseOf(step).stopConditions.time == Finite(Get(step, "seconds").n.value * 1000.0)
    ensures Get(step, "seconds").Str? && StringToNumber(Get(step, "seconds").s).Finite? ==>
      PhaseOf(step).stopConditions.time == Finite(StringToNumber(Get(step, "seconds").s).value * 1000.0)
    ensures "seconds" !in step ==> PhaseOf(step).stopConditions.time == NaN
  {
  }

  /** A phase depends on nothing in its step but the ten step properties. */
  lemma PhaseDependsOnStepKeysOnly(a: Record, b: Record)
    requires forall k :: k in STEP_KEYS ==> Get(a, k) == Get(b, k)
    ensures PhaseOf(a) == PhaseOf(b)
  {
    assert Get(a, "pump") == Get(b, "pump");
    assert Get(a, "flow") == Get(b, "flow");
    assert Get(a, "pressure") == Get(b, "pressure");
    assert Get(a, "transition") == Get(b, "transition");
    assert Get(a, "seconds") == Get(b, "seconds");
    assert Get(a, "exit_if") == Get(b, "exit_if");
    assert Get(a, "exit_pressure_over") == Get(b, "exit_pressure_over");
    assert Get(a, "exit_pressure_under") == Get(b, "exit_pressure_under");
    assert Get(a, "exit_flow_over") == Get(b, "exit_flow_over");
    assert Get(a, "exit_flow_under") == Get(b, "exit_flow_under");
  }

  /** `decentSteps.map(...)`: one phase per step, in step order. */
  function ToPhases(steps: seq<Record>): (phases: seq<Phase>)
    ensures |phases| == |steps|
    ensures forall k :: 0 <= k < |steps| ==> phases[k] == PhaseOf(steps[k])
  {
    if steps == [] then [] else [PhaseOf(steps[0])] + ToPhases(steps[1..])
  }

  /** `convertToGaggiuinoSchema(title, steps)`. */
  function ConvertToGaggiuinoSchema(title: string, steps: seq<Record>): (profile: Profile)
    ensures profile.id == None && profile.name == title
    ensures profile.globalStopConditions == GlobalStopConditions(0, 40, 0)
    ensures profile.waterTemperature == 93 && profile.recipe == []
    ensures |profile.phases| == |steps|
    ensures forall k :: 0 <= k < |steps| ==> profile.phases[k] == PhaseOf(steps[k])
  {
    Profile(
      id := None,
      name := title,
      globalStopConditions := DEFAULT_GLOBAL_STOP,
      waterTemperature := WATER_TEMPERATURE,
      recipe := [],
      phases := ToPhases(steps))
  }

  /** Reordering the steps reorders the phases the same way: nothing is sorted, merged or dropped. */
  lemma {:induction false} PhasesFollowSteps(title: string, steps: seq<Record>, order: seq<nat>)
    requires forall k :: 0 <= k < |order| ==> order[k] < |steps|
    ensures var reordered := seq(|order|, k requires 0 <= k < |order| => steps[order[k]]);
      var phases := ConvertToGaggiuinoSchema(title, steps).phases;
      ConvertToGaggiuinoSchema(title, reordered).phases ==
        seq(|order|, k requires 0 <= k < |order| => phases[order[k]])
  {
  }

  /** A braced `exit_if {0}` is the non-empty string "0" and enables the bounds; a plain `exit_if 0` does not. */
  lemma ExitIfZero(step: Record)
    ensures PhaseOf(step["exit_if" := Str("0")]).stopConditions.bounds.Some?
    ensures PhaseOf(step["exit_if" := PlainValue("0")]).stopConditions.bounds.None?
  {
    IntToStringRoundTrip(0);
    assert IntToString(0) == "0";
  }

  lemma TwentyFive()
    ensures StringToNumber("25") == Finite(25.0)
  {
    assert NatToDigits(2) == "2";
    assert NatToDigits(25) == "25";
    IntToStringRoundTrip(25);
  }

  /**
   * The record the step parser stores for the step text
   * `pump {pressure} pressure {9} flow {2} transition {fast} seconds {25} exit_if {true} exit_pressure_over {10}`
   * (braced values stay strings).
   */
  predicate IsExampleStep(step: Record) {
    step == map[
      "pump" := Str("pressure"), "pressure" := Str("9"), "flow" := Str("2"),
      "transition" := Str("fast"), "seconds" := Str("25"), "exit_if" := Str("true"),
      "exit_pressure_over" := Str("10")]
  }

  lemma ExampleControl(step: Record)
    requires IsExampleStep(step)
    ensures PhaseOf(step).phaseType == PRESSURE
    ensures PhaseOf(step).target == Target(Str("9"), INSTANT) && PhaseOf(step).restriction == Str("2")
  {
    assert Get(step, "pump") == Str("pressure");
    assert Get(step, "pressure") == Str("9") && Get(step, "flow") == Str("2");
    assert Get(step, "transition") == Str("fast");
  }

  lemma ExampleTime(step: Record)
    requires IsExampleStep(step)
    ensures PhaseOf(step).stopConditions.time == Finite(25000.0)
  {
    TwentyFive();
    assert Get(step, "seconds") == Str("25");
  }

  lemma ExampleBounds(step: Record)
    requires IsExampleStep(step)
    ensures PhaseOf(step).stopConditions.bounds == Some(Bounds(Str("10"), Undefined, Undefined, Undefined))
  {
    assert step.Keys == {"pump", "pressure", "flow", "transition", "seconds", "exit_if", "exit_pressure_over"};
    // the three absent exit keys differ in length from every present key
    assert forall k :: k in step ==> |k| !in {14, 15, 19};
    assert Get(step, "exit_if") == Str("true");
  }

  /** That step maps to a pressure phase: target 9, restriction 2, `INSTANT`, 25000 ms, one bound set. */
  lemma PressureStepExample(step: Record)
    requires IsExampleStep(step)
    ensures PhaseOf(step) == Phase(false, PRESSURE, Target(Str("9"), INSTANT), Str("2"),
        StopConditions(Finite(25000.0), Some(Bounds(Str("10"), Undefined, Undefined, Undefined))))
  {
    ExampleControl(step);
    ExampleTime(step);
    ExampleBounds(step);
  }
}
