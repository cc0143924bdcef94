/**
 * `ForceFunction` of initialisation.py:31-119: the validation of a force-definition dictionary
 * (`__setattr__`), its sampling onto the simulation time grid (`set`) and the query by linear
 * interpolation (`get`, numpy's `np.interp`).  `sin` and `cos` are parameters: the model does
 * not interpret them.
 */
module Force {
  import opened Wrappers
  import opened Errors
  import opened TimeGrid

  /**
   * The dictionary the parser collects between *FORCE and *ENDFORCE, one field per key it may
   * hold; `None` is a key that is absent.
   */
  datatype ForceDef = ForceDef(kind: Option<string>, omega: Option<real>, p0: Option<real>,
                               start: Option<real>, stop: Option<real>)

  /** The empty dictionary `{}`. */
  const EmptyDef := ForceDef(None, None, None, None, None)

  /** A `ForceFunction` on which `set` returned: the grid, the (completed) definition, the samples. */
  datatype ForceFunction = ForceFunction(bodyNo: int, time: seq<real>, forceDef: ForceDef,
                                         pArray: seq<real>)

  predicate IsWave(kind: Option<string>) {
    kind == Some("SIN") || kind == Some("COS")
  }

  /** `time[0] <= x <= time[-1]`. */
  predicate InSpan(x: real, time: seq<real>)
    requires |time| > 0
  {
    time[0] <= x <= time[|time| - 1]
  }

  /**
   * `__setattr__("_force_def", def)`: checks the definition and returns it with the defaults it
   * inserts into the caller's dictionary (START = 0.0, STOP = -1.0 for SIN and COS).
   */
  function Validate(def: ForceDef, time: seq<real>, bodyNo: int): (r: Result<ForceDef, Error>)
    // a definition without TYPE is incomplete
    ensures def.kind.None? ==> r == Failure(IncompleteForce(bodyNo))
    // TYPE=RANDOM is refused as not implemented
    ensures def.kind == Some("RANDOM") ==> r == Failure(RandomNotImplemented)
    // a given START or STOP outside the grid's span is refused, START first
    ensures IsWave(def.kind) && |time| > 0 && def.start.Some? && !InSpan(def.start.value, time)
            ==> r == Failure(StartOutOfSpan(bodyNo))
    ensures IsWave(def.kind) && |time| > 0 && def.stop.Some? && !InSpan(def.stop.value, time)
            && (def.start.None? || InSpan(def.start.value, time))
            ==> r == Failure(StopOutOfSpan(bodyNo))
    // a wave without OMEGA or P0 is incomplete, once its window has passed the range checks
    ensures IsWave(def.kind) && (def.omega.None? || def.p0.None?)
            && (def.start.None? || (|time| > 0 && InSpan(def.start.value, time)))
            && (def.stop.None? || (|time| > 0 && InSpan(def.stop.value, time)))
            ==> r == Failure(IncompleteForce(bodyNo))
    // an accepted wave has every key, the missing window ends replaced by the defaults
    ensures r.Success? && IsWave(def.kind) ==>
              r.value == def.(start := Some(def.start.GetOr(0.0)), stop := Some(def.stop.GetOr(-1.0)))
              && def.omega.Some? && def.p0.Some?
              && (def.start.Some? ==> |time| > 0 && InSpan(def.start.value, time))
              && (def.stop.Some? ==> |time| > 0 && InSpan(def.stop.value, time))
    // a complete wave whose given window ends lie inside the grid's span is accepted
    ensures IsWave(def.kind) && def.omega.Some? && def.p0.Some?
            && (def.start.None? || (|time| > 0 && InSpan(def.start.value, time)))
            && (def.stop.None? || (|time| > 0 && InSpan(def.stop.value, time)))
            ==> r.Success?
    // on an empty grid a given START or STOP of a wave raises IndexError (`time[0]`)
    ensures IsWave(def.kind) && |time| == 0 && (def.start.Some? || def.stop.Some?)
            ==> r == Failure(IndexOutOfRange)
    // any other TYPE is accepted unchanged
    ensures def.kind.Some? && !IsWave(def.kind) && def.kind != Some("RANDOM") ==> r == Success(def)
  {
    match def.kind
    case None => Failure(IncompleteForce(bodyNo))
    case Some(t) =>
      if t == "NONE" then Success(def)
      else if t == "SIN" || t == "COS" then
        var incomplete := def.omega.None? || def.p0.None?;
        if def.start.Some? && |time| == 0 then Failure(IndexOutOfRange)
        else if def.start.Some? && !InSpan(def.start.value, time) then Failure(StartOutOfSpan(bodyNo))
        else
          var withStart := if def.start.None? then def.(start := Some(0.0)) else def;
          if def.stop.Some? && |time| == 0 then Failure(IndexOutOfRange)
          else if def.stop.Some? && !InSpan(def.stop.value, time) then Failure(StopOutOfSpan(bodyNo))
          else
            var withStop := if def.stop.None? then withStart.(stop := Some(-1.0)) else withStart;
            if incomplete then Failure(IncompleteForce(bodyNo)) else Success(withStop)
      else if t == "RANDOM" then Failure(RandomNotImplemented)
      else Success(def)
  }

  /** The wave value `amp * wave(omega * (t - start))` at time `t`. */
  function WaveAt(amp: real, omega: real, wave: real -> real, t: real, start: real): real {
    amp * wave(omega * (t - start))
  }

  /** `np.where((time >= start) & (time <= stop), amp * wave(omega * (time - start)), 0.0)`. */
  function Windowed(time: seq<real>, start: real, stop: real, amp: real, omega: real,
                    wave: real -> real): seq<real>
  {
    seq(|time|, j requires 0 <= j < |time| =>
      if start <= time[j] <= stop then WaveAt(amp, omega, wave, time[j], start) else 0.0)
  }

  /** `np.zeros(n)`. */
  function Zeros(n: nat): seq<real> {
    seq(n, j => 0.0)
  }

  /** `ForceFunction.set(def, time, body_no)`, lines 41-67. */
  function Set(def: ForceDef, time: seq<real>, bodyNo: int, sin: real -> real, cos: real -> real)
    : (r: Result<ForceFunction, Error>)
    // a definition that `__setattr__` refuses raises its error before anything is sampled
    ensures Validate(def, time, bodyNo).Failure? ==> r == Failure(Validate(def, time, bodyNo).error)
    // a definition that skips the wave checks still needs STOP, and START after it
    ensures Validate(def, time, bodyNo).Success? && !IsWave(def.kind) && def.stop.None?
            ==> r == Failure(MissingKey("STOP"))
    ensures Validate(def, time, bodyNo).Success? && !IsWave(def.kind) && def.stop.Some?
            && def.start.None? && (def.stop.value >= 0.0 || |time| > 0)
            ==> r == Failure(MissingKey("START"))
    // a negative STOP means "the last grid time", which an empty grid does not have
    ensures Validate(def, time, bodyNo).Success? && |time| == 0
            && Validate(def, time, bodyNo).value.stop.GetOr(0.0) < 0.0
            ==> r == Failure(IndexOutOfRange)
    // with both window ends given, a TYPE that skips the checks is sampled as the zero force
    ensures def.kind.Some? && !IsWave(def.kind) && def.kind != Some("RANDOM")
            && def.stop.Some? && def.start.Some? && (def.stop.value >= 0.0 || |time| > 0)
            ==> r.Success? && r.value.pArray == Zeros(|time|)
    // the stored force: the body number, the grid, the completed definition, one sample per time
    ensures r.Success? ==>
              Validate(def, time, bodyNo).Success? && r.value.forceDef == Validate(def, time, bodyNo).value
              && r.value.bodyNo == bodyNo && r.value.time == time && |r.value.pArray| == |time|
  {
    match Validate(def, time, bodyNo)
    case Failure(e) => Failure(e)
    case Success(d) =>
      if d.stop.None? then Failure(MissingKey("STOP"))
      else if d.stop.value < 0.0 && |time| == 0 then Failure(IndexOutOfRange)
      else
        var tStop := if d.stop.value < 0.0 then time[|time| - 1] else d.stop.value;
        if d.start.None? then Failure(MissingKey("START"))
        else
          var tStart := d.start.value;
          if d.kind.None? then Failure(MissingKey("TYPE"))
          else if IsWave(d.kind) then
            if d.p0.None? then Failure(MissingKey("P0"))
            else if d.omega.None? then Failure(MissingKey("OMEGA"))
            else
              var wave := if d.kind == Some("SIN") then sin else cos;
              Success(ForceFunction(bodyNo, time, d, Windowed(time, tStart, tStop, d.p0.value, d.omega.value, wave)))
          else if d.kind == Some("RANDOM") then Failure(RandomNotImplemented)
          else Success(ForceFunction(bodyNo, time, d, Zeros(|time|)))
  }

  /** The window start `set` uses: the START of the completed definition. */
  function WindowStart(f: ForceFunction): real {
    f.forceDef.start.GetOr(0.0)
  }

  /** The window end `set` uses: STOP, or the last grid time for a negative STOP. */
  function WindowStop(f: ForceFunction): real {
    var stop := f.forceDef.stop.GetOr(-1.0);
    if stop < 0.0 && |f.time| > 0 then f.time[|f.time| - 1] else stop
  }

  /** The samples cover the grid and vanish at every grid time outside [start, stop]. */
  lemma SamplesVanishOutsideWindow(def: ForceDef, time: seq<real>, bodyNo: int,
                                   sin: real -> real, cos: real -> real, f: ForceFunction, j: nat)
    requires Set(def, time, bodyNo, sin, cos) == Success(f)
    requires j < |time|
    requires time[j] < WindowStart(f) || time[j] > WindowStop(f)
    ensures |f.pArray| == |time| && f.time == time
    ensures f.pArray[j] == 0.0
  {}

  /** Inside the window a SIN or COS force samples `P0 * wave(OMEGA * (t - START))`. */
  lemma SamplesInsideWindow(def: ForceDef, time: seq<real>, bodyNo: int,
                            sin: real -> real, cos: real -> real, f: ForceFunction, j: nat)
    requires Set(def, time, bodyNo, sin, cos) == Success(f)
    requires IsWave(def.kind) && j < |time|
    requires WindowStart(f) <= time[j] <= WindowStop(f)
    ensures def.p0.Some? && def.omega.Some?
    ensures def.kind == Some("SIN") ==>
              f.pArray[j] == WaveAt(def.p0.value, def.omega.value, sin, time[j], WindowStart(f))
    ensures def.kind == Some("COS") ==>
              f.pArray[j] == WaveAt(def.p0.value, def.omega.value, cos, time[j], WindowStart(f))
  {}

  /** A TYPE other than SIN or COS that passes `set` yields the all-zero force. */
  lemma NoWaveNoForce(def: ForceDef, time: seq<real>, bodyNo: int,
                      sin: real -> real, cos: real -> real, f: ForceFunction)
    requires Set(def, time, bodyNo, sin, cos) == Success(f)
    requires !IsWave(def.kind)
    ensures f.pArray == Zeros(|time|)
  {}

  /** A window whose start lies after its stop gives the all-zero force. */
  lemma EmptyWindowNoForce(def: ForceDef, time: seq<real>, bodyNo: int,
                           sin: real -> real, cos: real -> real, f: ForceFunction)
    requires Set(def, time, bodyNo, sin, cos) == Success(f)
    requires WindowStart(f) > WindowStop(f)
    ensures f.pArray == Zeros(|time|)
  {
    forall j | 0 <= j < |time| ensures f.pArray[j] == 0.0 {
      SamplesVanishOutsideWindow(def, time, bodyNo, sin, cos, f, j);
    }
  }

  /**
   * Missing window ends of a SIN or COS force become 0.0 and the last grid time; on a grid that
   * starts at 0.0 the window of an accepted wave lies within the simulated span.
   */
  lemma WaveWindowDefaults(def: ForceDef, time: seq<real>, bodyNo: int,
                           sin: real -> real, cos: real -> real, f: ForceFunction)
    requires Set(def, time, bodyNo, sin, cos) == Success(f)
    requires IsWave(def.kind)
    ensures def.start.None? ==> WindowStart(f) == 0.0
    ensures def.stop.None? ==> |time| > 0 && WindowStop(f) == time[|time| - 1]
    ensures |time| > 0 && time[0] == 0.0 <= time[|time| - 1] ==>
              InSpan(WindowStart(f), time) && InSpan(WindowStop(f), time)
  {}

  /**
   * NONE, and any TYPE other than SIN, COS or RANDOM, skips validation, so `set` reads STOP and
   * then START and raises KeyError unless both were given; with both it yields the all-zero force.
   */
  lemma UncheckedTypeNeedsWindow(def: ForceDef, time: seq<real>, bodyNo: int,
                                 sin: real -> real, cos: real -> real)
    requires def.kind.Some? && !IsWave(def.kind) && def.kind != Some("RANDOM")
    ensures def.stop.None? ==> Set(def, time, bodyNo, sin, cos) == Failure(MissingKey("STOP"))
    ensures def.stop.Some? && def.start.None? && (def.stop.value >= 0.0 || |time| > 0) ==>
              Set(def, time, bodyNo, sin, cos) == Failure(MissingKey("START"))
    ensures def.stop.Some? && def.start.Some? && (def.stop.value >= 0.0 || |time| > 0) ==>
              Set(def, time, bodyNo, sin, cos).Success?
              && Set(def, time, bodyNo, sin, cos).value.pArray == Zeros(|time|)
  {}

  /**
   * An incomplete SIN or COS definition whose window passes the range checks raises ValueError even
   * though its message announces that no force will be applied: the body does not fall back to a
   * zero force.
   */
  lemma IncompleteWaveRaises(def: ForceDef, time: seq<real>, bodyNo: int,
                             sin: real -> real, cos: real -> real)
    requires IsWave(def.kind) && (def.omega.None? || def.p0.None?)
    requires def.start.None? || (|time| > 0 && InSpan(def.start.value, time))
    requires def.stop.None? || (|time| > 0 && InSpan(def.stop.value, time))
    ensures Set(def, time, bodyNo, sin, cos) == Failure(IncompleteForce(bodyNo))
  {}

  /** `x` lies on the grid segment `[xp[k], xp[k + 1])` and `v` is the straight line through its ends. */
  predicate OnSegment(x: real, xp: seq<real>, fp: seq<real>, k: nat, v: real)
    requires |xp| == |fp| && Increasing(xp) && k < |xp| - 1
  {
    xp[k] <= x < xp[k + 1] && v == fp[k] + (fp[k + 1] - fp[k]) / (xp[k + 1] - xp[k]) * (x - xp[k])
  }

  /**
   * What numpy documents for `np.interp(x, xp, fp)`: the first sample left of the grid, the last
   * one right of it, and the straight line between the neighbouring samples inside.
   */
  predicate Interpolates(x: real, xp: seq<real>, fp: seq<real>, v: real)
    requires |xp| == |fp| > 0 && Increasing(xp)
  {
    && (x <= xp[0] ==> v == fp[0])
    && (x >= xp[|xp| - 1] ==> v == fp[|fp| - 1])
    && (xp[0] < x < xp[|xp| - 1] ==> exists k | 0 <= k < |xp| - 1 :: OnSegment(x, xp, fp, k, v))
  }

  /** numpy's linear interpolation on segment `j` or a later one; `x` lies inside the grid. */
  function Segment(x: real, xp: seq<real>, fp: seq<real>, j: nat): (r: real)
    requires |xp| == |fp| && Increasing(xp)
    requires j < |xp| - 1 && xp[j] <= x < xp[|xp| - 1]
    ensures exists k | j <= k < |xp| - 1 :: OnSegment(x, xp, fp, k, r)
    decreases |xp| - j
  {
    if x < xp[j + 1] then
      var v := fp[j] + (fp[j + 1] - fp[j]) / (xp[j + 1] - xp[j]) * (x - xp[j]);
      assert OnSegment(x, xp, fp, j, v);
      v
    else Segment(x, xp, fp, j + 1)
  }

  /** `np.interp(x, xp, fp)` for an increasing, non-empty `xp`: clamped at both ends. */
  function Interp(x: real, xp: seq<real>, fp: seq<real>): (r: real)
    requires |xp| == |fp| > 0 && Increasing(xp)
    ensures Interpolates(x, xp, fp, r)
  {
    if x <= xp[0] then fp[0]
    else if x >= xp[|xp| - 1] then fp[|fp| - 1]
    else Segment(x, xp, fp, 0)
  }

  /** `ForceFunction.get(t)`, line 70; np.interp raises ValueError on an empty grid. */
  function Get(f: ForceFunction, t: real): (r: Result<real, Error>)
    requires |f.time| == |f.pArray| && Increasing(f.time)
    ensures r.Success? <==> |f.time| > 0
    ensures r.Success? ==> Interpolates(t, f.time, f.pArray, r.value)
    ensures r.Failure? ==> r.error == NoSamples
  {
    if |f.time| == 0 then Failure(NoSamples) else Success(Interp(t, f.time, f.pArray))
  }

  lemma {:induction false} SegmentAtGrid(xp: seq<real>, fp: seq<real>, i: nat, j: nat)
    requires |xp| == |fp| && Increasing(xp)
    requires i <= j < |xp| - 1
    ensures Segment(xp[j], xp, fp, i) == fp[j]
    decreases j - i
  {
    if i < j {
      assert xp[i + 1] <= xp[j];
      SegmentAtGrid(xp, fp, i + 1, j);
    }
  }

  /** Interpolating at a grid time returns the sample stored for it. */
  lemma {:induction false} InterpAtGrid(xp: seq<real>, fp: seq<real>, j: nat)
    requires |xp| == |fp| && Increasing(xp) && j < |xp|
    ensures Interp(xp[j], xp, fp) == fp[j]
  {
    if 0 < j < |xp| - 1 {
      SegmentAtGrid(xp, fp, 0, j);
    }
  }

  /** `get` at a grid time outside the window of a sampled force returns exactly 0.0. */
  lemma GetVanishesOutsideWindow(def: ForceDef, time: seq<real>, bodyNo: int,
                                 sin: real -> real, cos: real -> real, f: ForceFunction, j: nat)
    requires Set(def, time, bodyNo, sin, cos) == Success(f)
    requires Increasing(time) && j < |time|
    requires time[j] < WindowStart(f) || time[j] > WindowStop(f)
    ensures |f.time| == |f.pArray| && Get(f, time[j]) == Success(0.0)
  {
    SamplesVanishOutsideWindow(def, time, bodyNo, sin, cos, f, j);
    InterpAtGrid(time, f.pArray, j);
  }

  /**
   * A complete SIN or COS definition whose given window ends lie in the span is sampled; only the
   * default STOP of an empty grid fails, on `time[-1]`.
   */
  lemma WaveAccepted(def: ForceDef, time: seq<real>, bodyNo: int,
                     sin: real -> real, cos: real -> real)
    requires IsWave(def.kind) && def.omega.Some? && def.p0.Some?
    requires def.start.None? || (|time| > 0 && InSpan(def.start.value, time))
    requires def.stop.None? || (|time| > 0 && InSpan(def.stop.value, time))
    ensures |time| > 0 ==> Set(def, time, bodyNo, sin, cos).Success?
    ensures |time| == 0 ==> Set(def, time, bodyNo, sin, cos) == Failure(IndexOutOfRange)
  {}

  /**
   * Between two grid times `get` interpolates, so outside the window it need not vanish there:
   * COS with START 1.0 on the grid [0.0, 1.0] samples 0.0 and P0, and `get(0.5)` is P0 / 2.
   */
  lemma GetBetweenGridTimes(sin: real -> real, cos: real -> real)
    requires cos(0.0) == 1.0
    ensures var def := ForceDef(Some("COS"), Some(1.0), Some(2.0), Some(1.0), None);
            && Set(def, [0.0, 1.0], 1, sin, cos).Success?
            && var f := Set(def, [0.0, 1.0], 1, sin, cos).value;
            && 0.5 < WindowStart(f)
            && Get(f, 0.5) == Success(1.0)
  {
    var def := ForceDef(Some("COS"), Some(1.0), Some(2.0), Some(1.0), None);
    var f := Set(def, [0.0, 1.0], 1, sin, cos).value;
    assert f.pArray == [0.0, 2.0];
  }
}
