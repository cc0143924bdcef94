/**
 * The line scanner of `InputData.__init__` (initialisation.py:124-248) as a state machine over
 * the lines of the input file.  One line changes a `ScanState` or raises; `Scan` runs a whole
 * file from the state the constructor sets up.  Opening and reading the file are not modelled:
 * the scanner receives the lines `readlines()` returns.
 */
module Parser {
  import opened Wrappers
  import opened Errors
  import opened Text
  import opened TimeGrid
  import opened Bodies
  import Force

  /**
   * What the model does not interpret: Python's `float()` and `int()` (`None` where they raise
   * ValueError) and numpy's `sqrt`, `sin` and `cos`.
   */
  datatype Env = Env(toReal: string -> Option<real>, toInt: string -> Option<int>,
                     sqrt: real -> real, sin: real -> real, cos: real -> real)

  /**
   * The scanner's state: the three block flags, the attributes of `self` it sets (`None` while
   * unset), the body list, the active body `_act_body` and the force dictionary `_force_def`.
   * After *ENDBODY the active body object is also an element of the list, and a second *ENDBODY
   * appends it again; `shared` counts the trailing list entries that are that same object, and
   * every change to the active body is made to them as well.
   */
  datatype ScanState = ScanState(
    simActive: bool, bodyActive: bool, forceActive: bool,
    tMax: Option<real>, tStep: Option<real>, fullAnimation: Option<bool>,
    time: Option<seq<real>>, nTsteps: Option<nat>,
    bodies: seq<MassBody>,
    act: Option<MassBody>, shared: nat,
    forceDef: Force.ForceDef)

  /** The state before the first line: no flag set, only the base body in the list. */
  const Start := ScanState(false, false, false, None, None, None, None, None, [NewBody],
                           None, 0, Force.EmptyDef)

  /** Replaces the last `shared` entries of `bodies`, the aliases of the active body, by `b`. */
  function Alias(bodies: seq<MassBody>, shared: nat, b: MassBody): (r: seq<MassBody>)
    ensures |r| == |bodies|
    ensures forall j | 0 <= j < |bodies| :: r[j] == if j >= |bodies| - shared then b else bodies[j]
  {
    seq(|bodies|, j requires 0 <= j < |bodies| => if j >= |bodies| - shared then b else bodies[j])
  }

  /** The state after the active body object has become `b`. */
  function WithAct(st: ScanState, b: MassBody): ScanState {
    st.(act := Some(b), bodies := Alias(st.bodies, st.shared, b))
  }

  /**
   * What one line may do to the body list: append at most one body, and change no entry other
   * than the aliases of the active body.
   */
  predicate Keeps(st: ScanState, next: ScanState) {
    && |st.bodies| <= |next.bodies| <= |st.bodies| + 1
    && forall j | 0 <= j < |st.bodies| - st.shared :: next.bodies[j] == st.bodies[j]
  }

  /** What one line may do to the time grid: keep it, or lay it out from TMAX and TSTEP. */
  predicate KeepsTime(st: ScanState, next: ScanState) {
    next.time == st.time
    || (st.tMax.Some? && st.tStep.Some? && st.tStep.value > 0.0
        && next.time == Some(Arange(st.tMax.value, st.tStep.value)))
  }

  /** `float(s)`. */
  function ToReal(s: string, env: Env): (r: Result<real, Error>)
    ensures r.Success? <==> env.toReal(s).Some?
  {
    match env.toReal(s)
    case None => Failure(BadNumber(s))
    case Some(v) => Success(v)
  }

  /** `float(line.split('=')[1])`. */
  function RealField(line: string, env: Env): Result<real, Error> {
    match Field(line)
    case None => Failure(IndexOutOfRange)
    case Some(v) => ToReal(v, env)
  }

  /** The loop `for s in pieces: arr = np.append(arr, float(s))`, failing at the first bad piece. */
  function Reals(pieces: seq<string>, env: Env): (r: Result<seq<real>, Error>)
    ensures r.Success? <==> forall j | 0 <= j < |pieces| :: env.toReal(pieces[j]).Some?
    ensures r.Success? ==> |r.value| == |pieces|
                           && forall j | 0 <= j < |pieces| :: env.toReal(pieces[j]) == Some(r.value[j])
  {
    if |pieces| == 0 then Success([])
    else
      match Reals(pieces[..|pieces| - 1], env)
      case Failure(e) => Failure(e)
      case Success(front) =>
        match ToReal(pieces[|pieces| - 1], env)
        case Failure(e) => Failure(e)
        case Success(v) => Success(front + [v])
  }

  /**
   * The CPL loop of lines 207-213: each piece converted by `int()` is appended, and a piece equal
   * to the body's own number raises ValueError.
   */
  function Couplings(pieces: seq<string>, number: int, env: Env): (r: Result<seq<int>, Error>)
    ensures r.Success? ==> |r.value| == |pieces| && number !in r.value
                           && forall j | 0 <= j < |pieces| :: env.toInt(pieces[j]) == Some(r.value[j])
    ensures (forall j | 0 <= j < |pieces| :: env.toInt(pieces[j]).Some?)
            && (exists j | 0 <= j < |pieces| :: env.toInt(pieces[j]) == Some(number))
            ==> r == Failure(SelfCoupling(number))
    ensures (forall j | 0 <= j < |pieces| :: env.toInt(pieces[j]).Some? && env.toInt(pieces[j]) != Some(number))
            ==> r.Success?
  {
    if |pieces| == 0 then Success([])
    else
      var front := pieces[..|pieces| - 1];
      var last := pieces[|pieces| - 1];
      assert forall j | 0 <= j < |front| :: front[j] == pieces[j];
      match Couplings(front, number, env)
      case Failure(e) => Failure(e)
      case Success(ids) =>
        match env.toInt(last)
        case None => Failure(BadNumber(last))
        case Some(id) => if id == number then Failure(SelfCoupling(number)) else Success(ids + [id])
  }

  /** Once a prefix of the pieces fails, so do all the pieces, with the same error. */
  lemma {:induction false} RealsPrefixFails(pieces: seq<string>, i: nat, env: Env)
    requires i <= |pieces| && Reals(pieces[..i], env).Failure?
    ensures Reals(pieces, env) == Reals(pieces[..i], env)
    decreases |pieces| - i
  {
    if i < |pieces| {
      assert pieces[..i + 1][..i] == pieces[..i];
      RealsPrefixFails(pieces, i + 1, env);
    } else {
      assert pieces[..i] == pieces;
    }
  }

  /** The loop of lines 197-199 (and 202-204): one conversion per piece, in order. */
  method ParseReals(pieces: seq<string>, env: Env) returns (r: Result<seq<real>, Error>)
    ensures r == Reals(pieces, env)
  {
    var values: seq<real> := [];
    var i := 0;
    while i < |pieces|
      invariant 0 <= i <= |pieces|
      invariant Reals(pieces[..i], env) == Success(values)
    {
      assert pieces[..i + 1][..i] == pieces[..i];
      match env.toReal(pieces[i]) {
        case None =>
          RealsPrefixFails(pieces, i + 1, env);
          return Failure(BadNumber(pieces[i]));
        case Some(v) =>
          values := values + [v];
      }
      i := i + 1;
    }
    assert pieces[..i] == pieces;
    return Success(values);
  }

  lemma {:induction false} CouplingsPrefixFails(pieces: seq<string>, number: int, i: nat, env: Env)
    requires i <= |pieces| && Couplings(pieces[..i], number, env).Failure?
    ensures Couplings(pieces, number, env) == Couplings(pieces[..i], number, env)
    decreases |pieces| - i
  {
    if i < |pieces| {
      assert pieces[..i + 1][..i] == pieces[..i];
      CouplingsPrefixFails(pieces, number, i + 1, env);
    } else {
      assert pieces[..i] == pieces;
    }
  }

  /** The loop of lines 208-213: append each converted entry, then reject the body's own number. */
  method ParseCouplings(pieces: seq<string>, number: int, env: Env) returns (r: Result<seq<int>, Error>)
    ensures r == Couplings(pieces, number, env)
  {
    var ids: seq<int> := [];
    var i := 0;
    while i < |pieces|
      invariant 0 <= i <= |pieces|
      invariant Couplings(pieces[..i], number, env) == Success(ids)
    {
      assert pieces[..i + 1][..i] == pieces[..i];
      match env.toInt(pieces[i]) {
        case None =>
          CouplingsPrefixFails(pieces, number, i + 1, env);
          return Failure(BadNumber(pieces[i]));
        case Some(id) =>
          ids := ids + [id];
          if id == number {
            CouplingsPrefixFails(pieces, number, i + 1, env);
            return Failure(SelfCoupling(number));
          }
      }
      i := i + 1;
    }
    assert pieces[..i] == pieces;
    return Success(ids);
  }

  /** *ENDSIMULATION, lines 166-172; reading an unset attribute raises AttributeError. */
  function EndSimulation(st: ScanState): (r: Result<ScanState, Error>)
    // `self.t_step` is read first, and `self._t_max` only when TSTEP is positive
    ensures st.tStep.None? ==> r == Failure(MissingAttribute("t_step"))
    ensures st.tStep.Some? && st.tStep.value <= 0.0 ==> r == Failure(TimeSettingsUndefined)
    ensures st.tStep.Some? && st.tStep.value > 0.0 && st.tMax.None? ==> r == Failure(MissingAttribute("_t_max"))
    ensures r.Success? <==> st.tStep.Some? && st.tMax.Some? && st.tStep.value > 0.0 && st.tMax.value > 0.0
    // the grid starts at 0.0, increases by TSTEP and stays below TMAX; the block is closed
    ensures r.Success? ==>
              var t := Arange(st.tMax.value, st.tStep.value);
              r.value == st.(time := Some(t), nTsteps := Some(|t|), simActive := false)
              && |t| > 0 && t[0] == 0.0 && Increasing(t)
              && forall j | 0 <= j < |t| :: t[j] == j as real * st.tStep.value && t[j] < st.tMax.value
  {
    if st.tStep.None? then Failure(MissingAttribute("t_step"))
    else if !(st.tStep.value > 0.0) then Failure(TimeSettingsUndefined)
    else if st.tMax.None? then Failure(MissingAttribute("_t_max"))
    else if !(st.tMax.value > 0.0) then Failure(TimeSettingsUndefined)
    else
      var time := Arange(st.tMax.value, st.tStep.value);
      Success(st.(time := Some(time), nTsteps := Some(|time|), simActive := false))
  }

  /** *BODY <number>, lines 175-178: a fresh active body. */
  function BeginBody(st: ScanState, line: string, env: Env): (r: Result<ScanState, Error>)
    // `line.split()[1]` must exist and `int()` must accept it
    ensures |Words(line)| < 2 ==> r == Failure(IndexOutOfRange)
    ensures r.Success? <==> |Words(line)| >= 2 && env.toInt(Words(line)[1]).Some?
    // a fresh `MassBody()` numbered by the second word becomes active; the list is untouched
    ensures r.Success? ==>
              r.value == st.(bodyActive := true, act := r.value.act, shared := 0)
              && r.value.act == Some(NewBody.(number := env.toInt(Words(line)[1]).value))
    ensures r.Success? ==> Keeps(st, r.value) && r.value.time == st.time
  {
    var words := Words(line);
    if |words| < 2 then Failure(IndexOutOfRange)
    else
      match env.toInt(words[1])
      case None => Failure(BadNumber(words[1]))
      case Some(number) =>
        Success(st.(bodyActive := true, act := Some(NewBody.(number := number)), shared := 0))
  }

  /**
   * *ENDBODY, lines 180-191: the three coupling lists must have one size, the damping
   * coefficients are computed and the active body is appended.
   */
  function EndBody(st: ScanState, env: Env): (r: Result<ScanState, Error>)
    ensures st.act.None? ==> r == Failure(NoActiveBody)
    // the three list sizes must agree, an absent STIFF or ZTA counting as one value
    ensures st.act.Some? ==>
              var b := st.act.value;
              (r.Success? <==> Size(b.k) == |b.coupl| && Size(b.zeta) == |b.coupl|)
              && (r.Failure? ==> r.error == IncompleteCoupling(b.number))
    // the active body gets its damping coefficients and is appended, once more an alias
    ensures r.Success? ==>
              var b := st.act.value;
              var done := b.(c := Damping(b.zeta, b.k, b.m, env.sqrt));
              r.value.act == Some(done) && !r.value.bodyActive && r.value.shared == st.shared + 1
              && r.value.bodies == Alias(st.bodies, st.shared, done) + [done]
              && r.value == st.(act := Some(done), bodyActive := false, shared := st.shared + 1,
                                bodies := r.value.bodies)
    ensures r.Success? ==> Keeps(st, r.value) && r.value.time == st.time
  {
    match st.act
    case None => Failure(NoActiveBody)
    case Some(b) =>
      if Size(b.k) != |b.coupl| || Size(b.zeta) != |b.coupl| then Failure(IncompleteCoupling(b.number))
      else
        var done := b.(c := Damping(b.zeta, b.k, b.m, env.sqrt));
        var st1 := WithAct(st, done);
        Success(st1.(bodyActive := false, bodies := st1.bodies + [done], shared := st.shared + 1))
  }

  /** *ENDFORCE, lines 228-232: the collected definition is set on the active body. */
  function EndForce(st: ScanState, env: Env): (r: Result<ScanState, Error>)
    // `_act_body` must exist, then `self.time`, then `set` must accept the dictionary
    ensures st.act.None? ==> r == Failure(NoActiveBody)
    ensures st.act.Some? && st.time.None? ==> r == Failure(MissingAttribute("time"))
    ensures st.act.Some? && st.time.Some? ==>
              var s := Force.Set(st.forceDef, st.time.value, st.act.value.number, env.sin, env.cos);
              (r.Success? <==> s.Success?) && (s.Failure? ==> r == Failure(s.error))
    // the active body and its aliases get the sampled force; the dictionary is emptied
    ensures r.Success? ==>
              var b := st.act.value;
              var f := Force.Set(st.forceDef, st.time.value, b.number, env.sin, env.cos).value;
              r.value.act == Some(b.(force := Some(f)))
              && r.value.forceDef == Force.EmptyDef && !r.value.forceActive
              && r.value == st.(act := r.value.act, bodies := Alias(st.bodies, st.shared, r.value.act.value),
                                forceDef := Force.EmptyDef, forceActive := false)
    ensures r.Success? ==> Keeps(st, r.value) && r.value.time == st.time
  {
    match st.act
    case None => Failure(NoActiveBody)
    case Some(b) =>
      match st.time
      case None => Failure(MissingAttribute("time"))
      case Some(time) =>
        match Force.Set(st.forceDef, time, b.number, env.sin, env.cos)
        case Failure(e) => Failure(e)
        case Success(f) =>
          Success(WithAct(st, b.(force := Some(f))).(forceDef := Force.EmptyDef, forceActive := false))
  }

  /** A key line of the active body: the new body, or the exception. */
  function BodyKey(b: MassBody, line: string, env: Env): (r: Result<MassBody, Error>)
    // `line.split("=")[1]` must exist
    ensures Field(line).None? ==> r == Failure(IndexOutOfRange)
    // the body number, the force and the damping coefficients are never touched by a key
    ensures r.Success? ==> r.value.number == b.number && r.value.force == b.force && r.value.c == b.c
    // exactly one key field is replaced
    ensures r.Success? ==>
              || r.value == b.(m := r.value.m) || r.value == b.(k := r.value.k)
              || r.value == b.(zeta := r.value.zeta) || r.value == b.(coupl := r.value.coupl)
              || r.value == b.(x0 := r.value.x0) || r.value == b.(v0 := r.value.v0)
              || r.value == b.(xloc := r.value.xloc)
    // a coupling list that a key stores never holds the body's own number
    ensures r.Success? ==> r.value.coupl == b.coupl || r.value.number !in r.value.coupl
  {
    match Field(line)
    case None => Failure(IndexOutOfRange)
    case Some(v) =>
      if "MASS" <= line then
        match ToReal(v, env) case Failure(e) => Failure(e) case Success(x) => Success(b.(m := x))
      else if "STIFF" <= line then
        match Reals(Split(v, ','), env) case Failure(e) => Failure(e) case Success(x) => Success(b.(k := Vector(x)))
      else if "ZTA" <= line then
        match Reals(Split(v, ','), env) case Failure(e) => Failure(e) case Success(x) => Success(b.(zeta := Vector(x)))
      else if "CPL" <= line then
        match Couplings(Split(v, ','), b.number, env) case Failure(e) => Failure(e) case Success(x) => Success(b.(coupl := x))
      else if "X0" <= line then
        match ToReal(v, env) case Failure(e) => Failure(e) case Success(x) => Success(b.(x0 := x))
      else if "V0" <= line then
        match ToReal(v, env) case Failure(e) => Failure(e) case Success(x) => Success(b.(v0 := x))
      else
        match ToReal(v, env) case Failure(e) => Failure(e) case Success(x) => Success(b.(xloc := x))
  }

  predicate IsBodyKey(line: string) {
    "MASS" <= line || "STIFF" <= line || "ZTA" <= line || "CPL" <= line
    || "X0" <= line || "V0" <= line || "XLOC" <= line
  }

  /** A key line of the force block: the new dictionary, or the exception. */
  function ForceKey(d: Force.ForceDef, line: string, env: Env): (r: Result<Force.ForceDef, Error>)
    // `line.split("=")[1]` must exist
    ensures Field(line).None? ==> r == Failure(IndexOutOfRange)
    // TYPE stores the stripped text, and cannot fail once the field exists
    ensures "TYPE" <= line && Field(line).Some? ==> r == Success(d.(kind := Some(Strip(Field(line).value))))
    // every other key stores one `float()` of the value under its own name
    ensures !("TYPE" <= line) && Field(line).Some? ==> (r.Success? <==> env.toReal(Field(line).value).Some?)
    ensures !("TYPE" <= line) && r.Success? ==>
              var x := env.toReal(Field(line).value);
              || r.value == d.(omega := x) || r.value == d.(p0 := x)
              || r.value == d.(start := x) || r.value == d.(stop := x)
  {
    match Field(line)
    case None => Failure(IndexOutOfRange)
    case Some(v) =>
      if "TYPE" <= line then Success(d.(kind := Some(Strip(v))))
      else
        match ToReal(v, env)
        case Failure(e) => Failure(e)
        case Success(x) =>
          if "OMEGA" <= line then Success(d.(omega := Some(x)))
          else if "P0" <= line then Success(d.(p0 := Some(x)))
          else if "START" <= line then Success(d.(start := Some(x)))
          else Success(d.(stop := Some(x)))
  }

  predicate IsForceKey(line: string) {
    "TYPE" <= line || "OMEGA" <= line || "P0" <= line || "START" <= line || "STOP" <= line
  }

  predicate IsSimulationKey(line: string) {
    "TMAX" <= line || "TSTEP" <= line || "ANISTYLE" <= line
  }

  /** A key line of the simulation block. */
  function SimulationKey(st: ScanState, line: string, env: Env): (r: Result<ScanState, Error>)
    // only TMAX, TSTEP or ANISTYLE is set
    ensures r.Success? ==> r.value == st.(tMax := r.value.tMax, tStep := r.value.tStep,
                                          fullAnimation := r.value.fullAnimation)
    // `line.split('=')[1]` must exist
    ensures Field(line).None? ==> r == Failure(IndexOutOfRange)
    // TMAX and TSTEP store one `float()` of the value in their own attribute, or raise ValueError
    ensures "TMAX" <= line && Field(line).Some? ==>
              var x := env.toReal(Field(line).value);
              r == if x.Some? then Success(st.(tMax := x)) else Failure(BadNumber(Field(line).value))
    ensures "TSTEP" <= line && Field(line).Some? ==>
              var x := env.toReal(Field(line).value);
              r == if x.Some? then Success(st.(tStep := x)) else Failure(BadNumber(Field(line).value))
  {
    if "TMAX" <= line then
      assert line[1] == 'M';
      match RealField(line, env) case Failure(e) => Failure(e) case Success(x) => Success(st.(tMax := Some(x)))
    else if "TSTEP" <= line then
      match RealField(line, env) case Failure(e) => Failure(e) case Success(x) => Success(st.(tStep := Some(x)))
    else
      match Field(line) case None => Failure(IndexOutOfRange) case Some(v) => Success(st.(fullAnimation := Some(|v| > 0)))
  }

  /** A key line of the body block, applied to the active body. */
  function BodyLine(st: ScanState, line: string, env: Env): (r: Result<ScanState, Error>)
    ensures st.act.None? ==> r == Failure(NoActiveBody)
    // the line raises exactly what the key raises; otherwise the active body and its aliases
    // become the body the key produces, and nothing else changes
    ensures st.act.Some? ==>
              var k := BodyKey(st.act.value, line, env);
              && (r.Success? <==> k.Success?)
              && (k.Failure? ==> r == Failure(k.error))
              && (k.Success? ==> r.value.act == Some(k.value)
                                 && r.value.bodies == Alias(st.bodies, st.shared, k.value)
                                 && r.value == st.(act := r.value.act, bodies := r.value.bodies))
    ensures r.Success? ==> Keeps(st, r.value) && r.value.time == st.time
  {
    match st.act
    case None => Failure(NoActiveBody)
    case Some(b) =>
      match BodyKey(b, line, env) case Failure(e) => Failure(e) case Success(b') => Success(WithAct(st, b'))
  }

  /** A key line of the force block, applied to the force dictionary. */
  function ForceLine(st: ScanState, line: string, env: Env): (r: Result<ScanState, Error>)
    // only the force dictionary changes
    ensures r.Success? ==> r.value == st.(forceDef := r.value.forceDef)
    // the line raises exactly what the key raises; otherwise the dictionary is the key's result
    ensures var d := ForceKey(st.forceDef, line, env);
            && (r.Success? <==> d.Success?)
            && (d.Failure? ==> r == Failure(d.error))
            && (d.Success? ==> r.value.forceDef == d.value)
  {
    match ForceKey(st.forceDef, line, env) case Failure(e) => Failure(e) case Success(d) => Success(st.(forceDef := d))
  }

  /** The `elif` chain of lines 154-246, which tests the prefixes in this order. */
  function Dispatch(st: ScanState, line: string, env: Env): (r: Result<ScanState, Error>)
    // no line removes a body or rewrites one that is not the active body
    ensures r.Success? ==> Keeps(st, r.value)
    // only *ENDSIMULATION lays out the time grid
    ensures r.Success? ==> KeepsTime(st, r.value)
    ensures r.Success? && r.value.time != st.time ==> "*ENDSIMULATION" <= line
    // *SIMULATION opens the simulation block and changes nothing else
    ensures "*SIMULATION" <= line ==> r == Success(st.(simActive := true))
  {
    if "*SIMULATION" <= line then Success(st.(simActive := true))
    else if st.simActive && IsSimulationKey(line) then SimulationKey(st, line, env)
    else if "*ENDSIMULATION" <= line then EndSimulation(st)
    else if "*BODY" <= line then BeginBody(st, line, env)
    else if "*ENDBODY" <= line then EndBody(st, env)
    else if st.bodyActive && IsBodyKey(line) then BodyLine(st, line, env)
    else if "*FORCE" <= line then Success(st.(forceActive := true))
    else if "*ENDFORCE" <= line then EndForce(st, env)
    else if st.forceActive && IsForceKey(line) then ForceLine(st, line, env)
    else Success(st)
  }

  /**
   * One line, lines 144-152: a `**` at column 0 makes the line a comment, a later `**` cuts the
   * line there and strips it, and a line of whitespace alone is skipped.
   */
  function ProcessLine(st: ScanState, line: string, env: Env): (r: Result<ScanState, Error>)
    // a comment line changes nothing
    ensures Find(line, "**") == 0 ==> r == Success(st)
    // a line without `**` is dispatched unless it is whitespace alone
    ensures Find(line, "**") < 0 ==> r == if IsSpaceLine(line) then Success(st) else Dispatch(st, line, env)
    ensures r.Success? ==> Keeps(st, r.value) && KeepsTime(st, r.value)
  {
    var ix := Find(line, "**");
    if ix == 0 then Success(st)
    else
      var text := if ix > 0 then Strip(line[..ix]) else line;
      if IsSpaceLine(text) then Success(st) else Dispatch(st, text, env)
  }

  /** The remaining lines from state `st`: stops at the first line that raises. */
  function ScanFrom(st: ScanState, lines: seq<string>, env: Env): Result<ScanState, Error>
    decreases |lines|
  {
    if |lines| == 0 then Success(st)
    else
      match ProcessLine(st, lines[0], env)
      case Failure(e) => Failure(e)
      case Success(next) => ScanFrom(next, lines[1..], env)
  }

  /** One step of the scan, in the form a loop over the lines uses. */
  lemma ScanStep(st: ScanState, lines: seq<string>, i: nat, env: Env)
    requires i < |lines|
    ensures ScanFrom(st, lines[i..], env) == match ProcessLine(st, lines[i], env)
                                            case Failure(e) => Failure(e)
                                            case Success(next) => ScanFrom(next, lines[i + 1..], env)
  {
    assert lines[i..][0] == lines[i] && lines[i..][1..] == lines[i + 1..];
  }

  /** A whole input file, from the state the constructor sets up. */
  function Scan(lines: seq<string>, env: Env): Result<ScanState, Error> {
    ScanFrom(Start, lines, env)
  }

  /** The loop of lines 143-246 over the lines of the file. */
  method ScanLines(lines: seq<string>, env: Env) returns (r: Result<ScanState, Error>)
    ensures r == Scan(lines, env)
  {
    var st := Start;
    var i := 0;
    while i < |lines|
      invariant 0 <= i <= |lines|
      invariant Scan(lines, env) == ScanFrom(st, lines[i..], env)
    {
      ScanStep(st, lines, i, env);
      var next := ProcessLine(st, lines[i], env);
      if next.Failure? {
        return Failure(next.error);
      }
      st := next.value;
      i := i + 1;
    }
    assert lines[i..] == [];
    return Success(st);
  }

  // ---------------------------------------------------------------------------------------------
  // Properties of the scanner.

  /** Writing the active body twice through its aliases leaves only the second write. */
  lemma AliasTwice(bodies: seq<MassBody>, shared: nat, b1: MassBody, b2: MassBody)
    ensures Alias(Alias(bodies, shared, b1), shared, b2) == Alias(bodies, shared, b2)
  {
  }

  /** A line that begins with `**` is a comment and changes nothing. */
  lemma CommentLineIgnored(st: ScanState, line: string, env: Env)
    requires "**" <= line
    ensures ProcessLine(st, line, env) == Success(st)
  {
    assert line[0..2] == "**";
    assert OccursAt(line, "**", 0);
  }

  /** The text before the first `**` of a line holds no `**`. */
  lemma HeadHasNoComment(line: string)
    requires Find(line, "**") > 0
    ensures !Occurs(line[..Find(line, "**")], "**")
  {
    var head := line[..Find(line, "**")];
    if Occurs(head, "**") {
      var j :| 0 <= j <= |head| && OccursAt(head, "**", j);
      assert head[j..j + 2] == line[j..j + 2];
      assert OccursAt(line, "**", j);
      assert false;
    }
  }

  /** A later `**` cuts the line: the scanner sees only the stripped text before it. */
  lemma InlineCommentCut(st: ScanState, line: string, env: Env)
    requires Find(line, "**") > 0
    ensures var text := Strip(line[..Find(line, "**")]);
            !Occurs(text, "**") && ProcessLine(st, line, env) == ProcessLine(st, text, env)
  {
    var head := line[..Find(line, "**")];
    HeadHasNoComment(line);
    var text := Strip(head);
    var lead := LeadingSpaces(head);
    assert text == head[lead..lead + |text|];
    NotInSlice(head, "**", lead, lead + |text|);
    assert Find(text, "**") == -1;
  }

  /** A line of whitespace alone changes nothing. */
  lemma BlankLineIgnored(st: ScanState, line: string, env: Env)
    requires IsSpaceLine(line)
    ensures ProcessLine(st, line, env) == Success(st)
  {
  }

  /** A line without `**` that does not begin with whitespace goes straight to the `elif` chain. */
  lemma PlainLine(st: ScanState, line: string, env: Env)
    requires !Occurs(line, "**") && |line| > 0 && !IsSpace(line[0])
    ensures ProcessLine(st, line, env) == Dispatch(st, line, env)
  {
  }

  /** A string is not a prefix of a line that starts with another character. */
  lemma Differ(p: string, line: string)
    requires |p| > 0 && |line| > 0 && p[0] != line[0]
    ensures !(p <= line)
  {
  }

  /** A line that does not start with `*` is no block marker. */
  lemma NoMarker(line: string)
    requires |line| > 0 && line[0] != '*'
    ensures !("*SIMULATION" <= line) && !("*ENDSIMULATION" <= line) && !("*BODY" <= line)
            && !("*ENDBODY" <= line) && !("*FORCE" <= line) && !("*ENDFORCE" <= line)
  {
    Differ("*SIMULATION", line);
    Differ("*ENDSIMULATION", line);
    Differ("*BODY", line);
    Differ("*ENDBODY", line);
    Differ("*FORCE", line);
    Differ("*ENDFORCE", line);
  }

  /** Inside a body block a key line of the body changes the active body and its aliases. */
  lemma BodyKeyLine(st: ScanState, line: string, env: Env)
    requires st.bodyActive && IsBodyKey(line) && !Occurs(line, "**")
    ensures ProcessLine(st, line, env) == BodyLine(st, line, env)
  {
    assert line[0] in "MSZCXV";
    NoMarker(line);
    Differ("TMAX", line);
    Differ("TSTEP", line);
    Differ("ANISTYLE", line);
    PlainLine(st, line, env);
  }

  /** The key every line of one key list starts with. */
  predicate IsListKey(key: string) {
    key == "STIFF" || key == "ZTA" || key == "CPL"
  }

  /** A second line of the same list key overwrites what the first one set. */
  lemma ListKeyOverwrites(b: MassBody, key: string, l1: string, l2: string, env: Env)
    requires IsListKey(key) && key <= l1 && key <= l2 && BodyKey(b, l1, env).Success?
    ensures BodyKey(BodyKey(b, l1, env).value, l2, env) == BodyKey(b, l2, env)
  {
    var b1 := BodyKey(b, l1, env).value;
    if key == "STIFF" {
      StiffnessKey(b, l1, env);
      StiffnessKey(b, l2, env);
      StiffnessKey(b1, l2, env);
    } else if key == "ZTA" {
      ZetaKey(b, l1, env);
      ZetaKey(b, l2, env);
      ZetaKey(b1, l2, env);
    } else {
      CouplingKey(b, l1, env);
      CouplingKey(b, l2, env);
      CouplingKey(b1, l2, env);
    }
  }

  /**
   * A second STIFF, ZTA or CPL line inside a body block replaces the first list: the state after
   * both lines is the state after the second alone.
   */
  lemma LastListLineWins(st: ScanState, key: string, l1: string, l2: string, env: Env)
    requires IsListKey(key) && st.bodyActive
    requires key <= l1 && key <= l2 && !Occurs(l1, "**") && !Occurs(l2, "**")
    requires ProcessLine(st, l1, env).Success?
    ensures ProcessLine(ProcessLine(st, l1, env).value, l2, env) == ProcessLine(st, l2, env)
  {
    assert IsBodyKey(l1) && IsBodyKey(l2) by { assert l1[..|key|] == key && l2[..|key|] == key; }
    BodyKeyLine(st, l1, env);
    var b := st.act.value;
    var b1 := BodyKey(b, l1, env).value;
    var st1 := WithAct(st, b1);
    BodyKeyLine(st1, l2, env);
    BodyKeyLine(st, l2, env);
    ListKeyOverwrites(b, key, l1, l2, env);
    if BodyKey(b, l2, env).Success? {
      AliasTwice(st.bodies, st.shared, b1, BodyKey(b, l2, env).value);
    }
  }

  /** A STIFF line of the body block sets the stiffness list. */
  lemma StiffnessKey(b: MassBody, line: string, env: Env)
    requires "STIFF" <= line
    ensures BodyKey(b, line, env) == match Field(line)
                                     case None => Failure(IndexOutOfRange)
                                     case Some(v) =>
                                       match Reals(Split(v, ','), env)
                                       case Failure(e) => Failure(e)
                                       case Success(x) => Success(b.(k := Vector(x)))
  {
    Differ("MASS", line);
  }

  /** A ZTA line of the body block sets the damping ratios. */
  lemma ZetaKey(b: MassBody, line: string, env: Env)
    requires "ZTA" <= line
    ensures BodyKey(b, line, env) == match Field(line)
                                     case None => Failure(IndexOutOfRange)
                                     case Some(v) =>
                                       match Reals(Split(v, ','), env)
                                       case Failure(e) => Failure(e)
                                       case Success(x) => Success(b.(zeta := Vector(x)))
  {
    Differ("MASS", line);
    Differ("STIFF", line);
  }

  /** A CPL line of the body block converts its entries with the body's own number excluded. */
  lemma CouplingKey(b: MassBody, line: string, env: Env)
    requires "CPL" <= line
    ensures BodyKey(b, line, env) == match Field(line)
                                     case None => Failure(IndexOutOfRange)
                                     case Some(v) =>
                                       match Couplings(Split(v, ','), b.number, env)
                                       case Failure(e) => Failure(e)
                                       case Success(x) => Success(b.(coupl := x))
  {
    Differ("MASS", line);
    Differ("STIFF", line);
    Differ("ZTA", line);
  }

  /**
   * The loop stops at the first entry equal to the body's number: whatever follows it, the
   * pieces raise ValueError once the entries before it converted and differ from the number.
   */
  lemma CouplingsStopAtSelf(pieces: seq<string>, number: int, env: Env, j: nat)
    requires j < |pieces| && env.toInt(pieces[j]) == Some(number)
    requires forall q | 0 <= q < j :: env.toInt(pieces[q]).Some? && env.toInt(pieces[q]) != Some(number)
    ensures Couplings(pieces, number, env) == Failure(SelfCoupling(number))
  {
    var front := pieces[..j + 1];
    assert front[..j] == pieces[..j] && front[j] == pieces[j];
    assert Couplings(pieces[..j], number, env).Success?;
    assert Couplings(front, number, env) == Failure(SelfCoupling(number));
    CouplingsPrefixFails(pieces, number, j + 1, env);
  }

  /** MASS, X0, V0 and XLOC lines store one `float()` of the value in their own field. */
  lemma ScalarKeys(b: MassBody, line: string, env: Env)
    requires Field(line).Some?
    ensures var x := env.toReal(Field(line).value);
            && ("MASS" <= line ==> BodyKey(b, line, env) == if x.Some? then Success(b.(m := x.value)) else Failure(BadNumber(Field(line).value)))
            && ("X0" <= line ==> BodyKey(b, line, env) == if x.Some? then Success(b.(x0 := x.value)) else Failure(BadNumber(Field(line).value)))
            && ("V0" <= line ==> BodyKey(b, line, env) == if x.Some? then Success(b.(v0 := x.value)) else Failure(BadNumber(Field(line).value)))
            && ("XLOC" <= line ==> BodyKey(b, line, env) == if x.Some? then Success(b.(xloc := x.value)) else Failure(BadNumber(Field(line).value)))
  {
    if "X0" <= line || "V0" <= line || "XLOC" <= line {
      Differ("MASS", line);
      Differ("STIFF", line);
      Differ("ZTA", line);
      Differ("CPL", line);
    }
    if "V0" <= line || "XLOC" <= line {
      assert !("X0" <= line) by { assert line[0] == 'V' || line[1] == 'L'; }
    }
    if "XLOC" <= line {
      Differ("V0", line);
    }
  }

  /** OMEGA, P0, START and STOP lines of the force block store one `float()` under their key. */
  lemma NumericForceKeys(d: Force.ForceDef, line: string, env: Env)
    requires Field(line).Some?
    ensures var x := env.toReal(Field(line).value);
            var fail := Failure(BadNumber(Field(line).value));
            && ("OMEGA" <= line ==> ForceKey(d, line, env) == if x.Some? then Success(d.(omega := x)) else fail)
            && ("P0" <= line ==> ForceKey(d, line, env) == if x.Some? then Success(d.(p0 := x)) else fail)
            && ("START" <= line ==> ForceKey(d, line, env) == if x.Some? then Success(d.(start := x)) else fail)
            && ("STOP" <= line ==> ForceKey(d, line, env) == if x.Some? then Success(d.(stop := x)) else fail)
  {
    if "OMEGA" <= line || "P0" <= line || "START" <= line || "STOP" <= line {
      Differ("TYPE", line);
    }
    if "P0" <= line || "START" <= line || "STOP" <= line {
      Differ("OMEGA", line);
    }
    if "START" <= line || "STOP" <= line {
      Differ("P0", line);
    }
    if "STOP" <= line {
      assert !("START" <= line) by { assert line[2] == 'O'; }
    }
  }

  /** A CPL entry equal to the body's own number raises ValueError. */
  lemma SelfCouplingRaises(st: ScanState, line: string, env: Env, j: nat)
    requires st.bodyActive && st.act.Some? && "CPL" <= line && !Occurs(line, "**")
    requires '=' in line
    requires var pieces := Split(Field(line).value, ',');
             var number := st.act.value.number;
             && j < |pieces| && env.toInt(pieces[j]) == Some(number)
             && forall q | 0 <= q < j :: env.toInt(pieces[q]).Some? && env.toInt(pieces[q]) != Some(number)
    ensures ProcessLine(st, line, env) == Failure(SelfCoupling(st.act.value.number))
  {
    BodyKeyLine(st, line, env);
    CouplingKey(st.act.value, line, env);
    CouplingsStopAtSelf(Split(Field(line).value, ','), st.act.value.number, env, j);
  }

  /** An accepted CPL line leaves the body number out of the coupling list. */
  lemma AcceptedCouplingsExcludeOwnNumber(st: ScanState, line: string, env: Env)
    requires st.bodyActive && st.act.Some? && "CPL" <= line && !Occurs(line, "**")
    requires ProcessLine(st, line, env).Success?
    ensures var after := ProcessLine(st, line, env).value;
            after.act.Some? && after.act.value.number == st.act.value.number
            && after.act.value.number !in after.act.value.coupl
            && |after.act.value.coupl| == |Split(Field(line).value, ',')|
  {
    BodyKeyLine(st, line, env);
    CouplingKey(st.act.value, line, env);
  }

  /**
   * *ENDBODY accepts the active body exactly when its STIFF, ZTA and CPL lists have one size (an
   * absent STIFF or ZTA counts as a single value), and then appends it with its damping
   * coefficients computed.
   */
  lemma EndBodyChecksCounts(st: ScanState, line: string, env: Env)
    requires "*ENDBODY" <= line && !Occurs(line, "**")
    ensures st.act.None? ==> ProcessLine(st, line, env) == Failure(NoActiveBody)
    ensures st.act.Some? ==>
              var b := st.act.value;
              (ProcessLine(st, line, env).Success? <==> Size(b.k) == |b.coupl| && Size(b.zeta) == |b.coupl|)
              && (ProcessLine(st, line, env).Failure? ==>
                    ProcessLine(st, line, env).error == IncompleteCoupling(b.number))
    ensures ProcessLine(st, line, env).Success? ==>
              var after := ProcessLine(st, line, env).value;
              var b := st.act.value;
              !after.bodyActive && |after.bodies| == |st.bodies| + 1
              && after.act == Some(b.(c := Damping(b.zeta, b.k, b.m, env.sqrt)))
              && after.bodies[|st.bodies|] == after.act.value
              && forall j | 0 <= j < |st.bodies| - st.shared :: after.bodies[j] == st.bodies[j]
  {
    assert line[0] == '*' && line[1] == 'E' && line[4] == 'B';
    assert !("*SIMULATION" <= line) && !("*ENDSIMULATION" <= line) && !("*BODY" <= line);
    assert !IsSimulationKey(line) by { Differ("TMAX", line); Differ("TSTEP", line); Differ("ANISTYLE", line); }
    PlainLine(st, line, env);
  }

  /**
   * *ENDFORCE samples the collected definition for the active body: NameError without one,
   * AttributeError before *ENDSIMULATION, and the error of `set`; on success the active body and
   * its aliases hold the force, and the dictionary is emptied and closed.
   */
  lemma EndForceSetsForce(st: ScanState, line: string, env: Env)
    requires "*ENDFORCE" <= line && !Occurs(line, "**")
    ensures st.act.None? ==> ProcessLine(st, line, env) == Failure(NoActiveBody)
    ensures st.act.Some? && st.time.None? ==> ProcessLine(st, line, env) == Failure(MissingAttribute("time"))
    ensures st.act.Some? && st.time.Some? ==>
              var s := Force.Set(st.forceDef, st.time.value, st.act.value.number, env.sin, env.cos);
              && (ProcessLine(st, line, env).Success? <==> s.Success?)
              && (s.Failure? ==> ProcessLine(st, line, env) == Failure(s.error))
              && (s.Success? ==>
                    var after := ProcessLine(st, line, env).value;
                    && after.act == Some(st.act.value.(force := Some(s.value)))
                    && after.forceDef == Force.EmptyDef && !after.forceActive
                    && after.time == st.time && |after.bodies| == |st.bodies|
                    && forall j | 0 <= j < |st.bodies| ::
                         after.bodies[j] == if j >= |st.bodies| - st.shared then after.act.value else st.bodies[j])
  {
    EndForceLine(st, line, env);
  }

  /** An *ENDFORCE line reaches the branch of lines 228-232. */
  lemma EndForceLine(st: ScanState, line: string, env: Env)
    requires "*ENDFORCE" <= line && !Occurs(line, "**")
    ensures ProcessLine(st, line, env) == EndForce(st, env)
  {
    assert line[0] == '*' && line[1] == 'E' && line[4] == 'F';
    assert !("*SIMULATION" <= line) && !("*ENDSIMULATION" <= line) && !("*BODY" <= line)
           && !("*ENDBODY" <= line) && !("*FORCE" <= line);
    assert !IsSimulationKey(line) by { Differ("TMAX", line); Differ("TSTEP", line); Differ("ANISTYLE", line); }
    assert !IsBodyKey(line) by {
      Differ("MASS", line); Differ("STIFF", line); Differ("ZTA", line); Differ("CPL", line);
      Differ("X0", line); Differ("V0", line); Differ("XLOC", line);
    }
    PlainLine(st, line, env);
    assert ProcessLine(st, line, env) == EndForce(st, env);
  }

  /** A *SIMULATION line opens the simulation block (line 155) and changes nothing else. */
  lemma SimulationOpens(st: ScanState, line: string, env: Env)
    requires "*SIMULATION" <= line && !Occurs(line, "**")
    ensures ProcessLine(st, line, env) == Success(st.(simActive := true))
  {
    assert line[0] == '*';
    PlainLine(st, line, env);
  }

  /**
   * Inside the simulation block, a TMAX or TSTEP line stores one `float()` of the value in its
   * own attribute (lines 157-161), or raises IndexError without `=` and ValueError for a value
   * `float()` refuses.
   */
  lemma SimulationKeys(st: ScanState, line: string, env: Env)
    requires st.simActive && ("TMAX" <= line || "TSTEP" <= line) && !Occurs(line, "**")
    ensures Field(line).None? ==> ProcessLine(st, line, env) == Failure(IndexOutOfRange)
    ensures Field(line).Some? ==>
              var x := env.toReal(Field(line).value);
              var fail := Failure(BadNumber(Field(line).value));
              && ("TMAX" <= line ==> ProcessLine(st, line, env) == if x.Some? then Success(st.(tMax := x)) else fail)
              && ("TSTEP" <= line ==> ProcessLine(st, line, env) == if x.Some? then Success(st.(tStep := x)) else fail)
  {
    assert line[0] == 'T';
    Differ("*SIMULATION", line);
    PlainLine(st, line, env);
    assert ProcessLine(st, line, env) == SimulationKey(st, line, env);
  }

  /** A *FORCE line opens the force block (lines 225-226) and changes nothing else. */
  lemma ForceOpens(st: ScanState, line: string, env: Env)
    requires "*FORCE" <= line && !Occurs(line, "**")
    ensures ProcessLine(st, line, env) == Success(st.(forceActive := true))
  {
    assert line[0] == '*' && line[1] == 'F';
    assert !("*SIMULATION" <= line) && !("*ENDSIMULATION" <= line) && !("*BODY" <= line)
           && !("*ENDBODY" <= line);
    assert !IsSimulationKey(line) by { Differ("TMAX", line); Differ("TSTEP", line); Differ("ANISTYLE", line); }
    assert !IsBodyKey(line) by {
      Differ("MASS", line); Differ("STIFF", line); Differ("ZTA", line); Differ("CPL", line);
      Differ("X0", line); Differ("V0", line); Differ("XLOC", line);
    }
    PlainLine(st, line, env);
    assert ProcessLine(st, line, env) == Success(st.(forceActive := true));
  }

  /**
   * Inside the force block, a key line of the force (lines 233-246) reaches the force dictionary,
   * whatever the other flags are.
   */
  lemma ForceKeyLine(st: ScanState, line: string, env: Env)
    requires st.forceActive && IsForceKey(line) && !Occurs(line, "**")
    ensures ProcessLine(st, line, env) == ForceLine(st, line, env)
  {
    assert line[0] in "TOPS";
    ForceKeyIsNoOtherKey(line);
    PlainLine(st, line, env);
  }

  /** A key of the force block is no block marker and no key of the other two blocks. */
  lemma ForceKeyIsNoOtherKey(line: string)
    requires IsForceKey(line)
    ensures !("*SIMULATION" <= line) && !("*ENDSIMULATION" <= line) && !("*BODY" <= line)
            && !("*ENDBODY" <= line) && !("*FORCE" <= line) && !("*ENDFORCE" <= line)
    ensures !IsSimulationKey(line) && !IsBodyKey(line)
  {
    assert line[0] in "TOPS";
    NoMarker(line);
    assert !IsSimulationKey(line) by {
      if "TYPE" <= line { assert line[1] == 'Y'; }
      Differ("ANISTYLE", line);
    }
    assert !IsBodyKey(line) by {
      Differ("MASS", line); Differ("ZTA", line); Differ("CPL", line);
      Differ("X0", line); Differ("V0", line); Differ("XLOC", line);
      if "START" <= line || "STOP" <= line { assert line[2] != 'I'; } else { Differ("STIFF", line); }
    }
  }

  /** ANISTYLE is true for every non-empty value, `0` included. */
  lemma AniStyleNonEmptyIsTrue(st: ScanState, line: string, env: Env)
    requires st.simActive && "ANISTYLE" <= line && !Occurs(line, "**") && '=' in line
    ensures ProcessLine(st, line, env) == Success(st.(fullAnimation := Some(|Field(line).value| > 0)))
  {
    NoMarker(line);
    Differ("TMAX", line);
    Differ("TSTEP", line);
    PlainLine(st, line, env);
  }

  /**
   * *ENDSIMULATION with both settings present succeeds exactly when both are positive, and then
   * lays out the time grid.
   */
  lemma EndSimulationBuildsGrid(st: ScanState, line: string, env: Env)
    requires "*ENDSIMULATION" <= line && !Occurs(line, "**")
    requires st.tStep.Some? && st.tMax.Some?
    ensures ProcessLine(st, line, env).Success? <==> st.tStep.value > 0.0 && st.tMax.value > 0.0
    ensures ProcessLine(st, line, env).Failure? ==> ProcessLine(st, line, env).error == TimeSettingsUndefined
    ensures ProcessLine(st, line, env).Success? ==>
              var after := ProcessLine(st, line, env).value;
              var t := Arange(st.tMax.value, st.tStep.value);
              after.time == Some(t) && after.nTsteps == Some(|t|) && !after.simActive
              && |t| > 0 && t[0] == 0.0
  {
    assert line[0] == '*' && line[1] == 'E' && line[4] == 'S';
    assert !("*SIMULATION" <= line) && !IsSimulationKey(line) by {
      Differ("TMAX", line); Differ("TSTEP", line); Differ("ANISTYLE", line);
    }
    PlainLine(st, line, env);
    assert ProcessLine(st, line, env) == EndSimulation(st);
  }

  /** What *ENDBODY establishes about a body it appends. */
  predicate Checked(b: MassBody, env: Env) {
    Size(b.k) == |b.coupl| && Size(b.zeta) == |b.coupl| && b.number !in b.coupl
    && b.c == Damping(b.zeta, b.k, b.m, env.sqrt)
  }

  /** The invariant of the scan. */
  predicate Wf(st: ScanState, env: Env) {
    && |st.bodies| >= 1 && st.bodies[0] == NewBody
    && st.shared < |st.bodies|
    && (st.bodyActive ==> st.shared == 0 && st.act.Some?)
    && (st.act.Some? ==> st.act.value.number !in st.act.value.coupl)
    && (st.shared > 0 ==> st.act.Some? && Checked(st.act.value, env)
                          && forall j | |st.bodies| - st.shared <= j < |st.bodies| :: st.bodies[j] == st.act.value)
    && (forall j | 1 <= j < |st.bodies| :: Checked(st.bodies[j], env))
    && (st.time.Some? <==> st.nTsteps.Some?)
    && (st.time.Some? ==> |st.time.value| > 0 && st.time.value[0] == 0.0 && Increasing(st.time.value)
                          && st.nTsteps.value == |st.time.value|)
  }

  lemma WithActKeepsWf(st: ScanState, b: MassBody, env: Env)
    requires Wf(st, env) && st.act.Some? && b.number !in b.coupl
    requires st.shared > 0 ==> Checked(b, env)
    ensures Wf(WithAct(st, b), env)
  {
  }

  lemma EndBodyKeepsWf(st: ScanState, env: Env)
    requires Wf(st, env) && EndBody(st, env).Success?
    ensures Wf(EndBody(st, env).value, env)
  {
    var b := st.act.value;
    var done := b.(c := Damping(b.zeta, b.k, b.m, env.sqrt));
    assert Checked(done, env);
    WithActKeepsWf(st, done, env);
  }

  lemma BodyLineKeepsWf(st: ScanState, line: string, env: Env)
    requires Wf(st, env) && st.bodyActive && BodyLine(st, line, env).Success?
    ensures Wf(BodyLine(st, line, env).value, env)
  {
    var b := BodyKey(st.act.value, line, env).value;
    assert b.number !in b.coupl;
    WithActKeepsWf(st, b, env);
  }

  lemma EndForceKeepsWf(st: ScanState, env: Env)
    requires Wf(st, env) && EndForce(st, env).Success?
    ensures Wf(EndForce(st, env).value, env)
  {
    var b := st.act.value;
    var f := Force.Set(st.forceDef, st.time.value, b.number, env.sin, env.cos).value;
    WithActKeepsWf(st, b.(force := Some(f)), env);
  }

  /** A step that leaves the body list, the active body and the time grid alone keeps the invariant. */
  lemma FrameKeepsWf(st: ScanState, next: ScanState, env: Env)
    requires Wf(st, env)
    requires next.bodies == st.bodies && next.act == st.act && next.shared == st.shared
    requires next.time == st.time && next.nTsteps == st.nTsteps && next.bodyActive == st.bodyActive
    ensures Wf(next, env)
  {
  }

  lemma SimulationKeyKeepsWf(st: ScanState, line: string, env: Env)
    requires Wf(st, env) && SimulationKey(st, line, env).Success?
    ensures Wf(SimulationKey(st, line, env).value, env)
  {
    var next := SimulationKey(st, line, env).value;
    if "TMAX" <= line {
      assert next == st.(tMax := next.tMax);
    } else if "TSTEP" <= line {
      assert next == st.(tStep := next.tStep);
    } else {
      assert next == st.(fullAnimation := next.fullAnimation);
    }
    FrameKeepsWf(st, next, env);
  }

  lemma EndSimulationKeepsWf(st: ScanState, env: Env)
    requires Wf(st, env) && EndSimulation(st).Success?
    ensures Wf(EndSimulation(st).value, env)
  {
  }

  lemma BeginBodyKeepsWf(st: ScanState, line: string, env: Env)
    requires Wf(st, env) && BeginBody(st, line, env).Success?
    ensures Wf(BeginBody(st, line, env).value, env)
  {
  }

  lemma ForceLineKeepsWf(st: ScanState, line: string, env: Env)
    requires Wf(st, env) && ForceLine(st, line, env).Success?
    ensures Wf(ForceLine(st, line, env).value, env)
  {
    FrameKeepsWf(st, ForceLine(st, line, env).value, env);
  }

  lemma DispatchKeepsWf(st: ScanState, line: string, env: Env)
    requires Wf(st, env) && Dispatch(st, line, env).Success?
    ensures Wf(Dispatch(st, line, env).value, env)
  {
    if "*SIMULATION" <= line {
      FrameKeepsWf(st, st.(simActive := true), env);
    } else if st.simActive && IsSimulationKey(line) {
      SimulationKeyKeepsWf(st, line, env);
    } else if "*ENDSIMULATION" <= line {
      EndSimulationKeepsWf(st, env);
    } else if "*BODY" <= line {
      BeginBodyKeepsWf(st, line, env);
    } else {
      DispatchTailKeepsWf(st, line, env);
    }
  }

  /** The branches of the `elif` chain from *ENDBODY on. */
  lemma DispatchTailKeepsWf(st: ScanState, line: string, env: Env)
    requires Wf(st, env) && Dispatch(st, line, env).Success?
    requires !("*SIMULATION" <= line) && !(st.simActive && IsSimulationKey(line))
    requires !("*ENDSIMULATION" <= line) && !("*BODY" <= line)
    ensures Wf(Dispatch(st, line, env).value, env)
  {
    if "*ENDBODY" <= line {
      EndBodyKeepsWf(st, env);
    } else if st.bodyActive && IsBodyKey(line) {
      BodyLineKeepsWf(st, line, env);
    } else if "*FORCE" <= line {
      FrameKeepsWf(st, st.(forceActive := true), env);
    } else if "*ENDFORCE" <= line {
      EndForceKeepsWf(st, env);
    } else if st.forceActive && IsForceKey(line) {
      ForceLineKeepsWf(st, line, env);
    }
  }

  /**
   * Every state the scan reaches keeps the base body first and unchanged, and every body after it
   * passed the *ENDBODY checks: equal list sizes, no coupling to itself, damping from its data.
   */
  lemma {:induction false} ScanKeepsWf(st: ScanState, lines: seq<string>, env: Env)
    requires Wf(st, env)
    ensures ScanFrom(st, lines, env).Success? ==> Wf(ScanFrom(st, lines, env).value, env)
    decreases |lines|
  {
    if |lines| > 0 {
      var r := ProcessLine(st, lines[0], env);
      if r.Success? {
        var ix := Find(lines[0], "**");
        if ix != 0 {
          var text := if ix > 0 then Strip(lines[0][..ix]) else lines[0];
          if !IsSpaceLine(text) {
            DispatchKeepsWf(st, text, env);
          }
        }
        ScanKeepsWf(r.value, lines[1..], env);
      }
    }
  }

  /** The invariant of every completed scan of a file. */
  lemma ScanWellFormed(lines: seq<string>, env: Env)
    ensures Scan(lines, env).Success? ==>
              var st := Scan(lines, env).value;
              |st.bodies| >= 1 && st.bodies[0] == NewBody
              && forall j | 1 <= j < |st.bodies| :: Checked(st.bodies[j], env)
  {
    ScanKeepsWf(Start, lines, env);
  }
}
