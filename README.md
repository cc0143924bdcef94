# A Dafny model of the initialisation module of 05_MDOF

05_MDOF simulates a chain of point masses coupled by springs and dampers. It reads the bodies, the
simulation time settings and per-body force functions from a directive-based input file. It then
assembles the mass, damping and stiffness matrices of the equation of motion
`M x'' + C x' + K x = P(t)` and integrates that equation with a Runge-Kutta scheme. This project
models `mod/initialisation.py`, the part that reads the input and assembles the system:

- `MassBody`, the record of one body. Position 0 of the body list is always the fixed base, with
  number 0.
- `ForceFunction`: its validation hook `__setattr__`, which checks a force definition and fills in
  the default window ends; its sampling `set` onto the time grid; and its query `get`, a linear
  interpolation.
- The line scanner of `InputData.__init__`. This is the `*SIMULATION`, `*BODY` and `*FORCE`
  block grammar with its `**` comments.
- `InputData.couple_bodies`, which fills the relation, mass, damping and stiffness arrays, removes
  the base and mirrors the upper half of the matrices.
- `get_init_cond` and `get_force_array`.

The model is organised in modules, one per file:

| module | file | contents |
|---|---|---|
| `Wrappers` | wrappers.dfy | `Option` and `Result` |
| `Errors` | errors.dfy | one constructor per exception the module raises |
| `Text` | text.dfy | the Python `str` operations the scanner uses: `find`, `strip`, `split(sep)`, `split()`, `isspace` |
| `TimeGrid` | timegrid.dfy | `np.arange(0.0, TMAX, TSTEP)` |
| `Force` | force.dfy | `ForceFunction` as a value: `Validate`, `Set`, `Interp`, `Get` |
| `Bodies` | bodies.dfy | `MassBody` as a value; a coefficient is a Python scalar or a numpy vector |
| `Parser` | parser.dfy | the scanner, as a state machine over lines (`ProcessLine`, `Scan`), and the loop `ScanLines` |
| `Assembly` | assembly.dfy | what `couple_bodies` computes, as functions of the body list, and its properties |
| `Input` | inputdata.dfy | class `InputData`: `Load`, `CoupleBodies` on `array2` fields, `GetInitCond`, `GetForceArray` |

`couple_bodies` updates numpy arrays in place, so `Input` keeps it imperative. Its helper methods
work on `array2` and are proved to leave exactly the matrices that `Assembly.Assemble` specifies.
The properties of the assembly are then proved about `Assemble` itself.

In several places the code does something other than its messages, names or comments suggest.
The model follows the code in each case:

- An incomplete SIN or COS force definition raises ValueError. The body does not fall back to a
  zero force, although the message says "No force will be applied" (`Force.IncompleteWaveRaises`).
- A TYPE other than SIN, COS or RANDOM skips the checks of `__setattr__`, as NONE does. `set` then
  raises KeyError at lines 47 and 52 unless both STOP and START were given. With both it yields a
  zero force (`Force.Set`, `Force.UncheckedTypeNeedsWindow`).
- The base body is checked for a coupling like every other body. A body list in which no body
  couples to position 0 is rejected (`Assembly.BaseMustBeCoupled`).
- A mass of zero is not rejected.
- `ANISTYLE` becomes `bool` of the raw text after `=`. This is true for every non-empty value,
  `0` included (`Parser.AniStyleNonEmptyIsTrue`).
- Each entry right of the diagonal is minus the sum over all of that body's couplings to moving
  bodies (`Assembly.OffDiagonalIsRowConstant`). It is not minus the coefficient of the one
  coupling between the two bodies, and it is not zero for two bodies that are not coupled. In
  the chain base-1-2-3 with springs 10, 5 and 5, bodies 1 and 3 are not coupled, yet they get
  the stiffness entry -5 (`Assembly.ThreeBodyChainAsWritten`).

The textbook matrix is defined beside it as `Assembly.Textbook`, as a reference. It is symmetric
without the mirroring step (`Assembly.TextbookSymmetric`), and it is zero for two distinct bodies
that are not coupled (`Assembly.TextbookUncoupledIsZero`, `Assembly.ThreeBodyChainIntended`). The
two definitions agree for the base with two moving bodies when neither moving body is related to
itself (`Assembly.TwoMovingBodiesAgree`). So a two-mass oscillator without a self-coupling cannot
tell them apart. `Input` builds the matrices as the code does.

Python's `float()` and `int()` conversions, and numpy's `sqrt`, `sin` and `cos`, are not
interpreted. They are the fields of the parameter `Parser.Env`. A conversion that raises
ValueError is `None` there. Floating-point numbers are exact reals.

`get` is zero at every grid time outside the force window (`Force.GetVanishesOutsideWindow`).
Between two grid times it interpolates, so just outside the window it need not vanish
(`Force.GetBetweenGridTimes`).

## Model

| member | source | states |
|---|---|---|
| `Bodies.At` | mod/initialisation.py:273-277 | indexing a coefficient list succeeds exactly for a vector holding that index and yields its element; indexing a scalar raises the error the caller names |
| `Bodies.Damping` | mod/initialisation.py:188-189 | the damping coefficient list has the size of the stiffness list; it is a scalar exactly when zeta and k are both scalars; element `j` is `zeta[j] * 2 * sqrt(k[j] * m)` under numpy broadcasting |
| `TimeGrid.Arange` | mod/initialisation.py:168 | the time grid starts at 0.0, is strictly increasing, holds `j * TSTEP` at position `j`, stays below TMAX and has enough points to reach TMAX |
| `Text.Find` | mod/initialisation.py:144 | `find` returns -1 exactly when the pattern does not occur; otherwise it returns the first position where it occurs |
| `Text.Strip` | mod/initialisation.py:150 | `strip` returns the slice between the leading and the trailing whitespace; the result neither starts nor ends with whitespace |
| `Text.Split` | mod/initialisation.py:197-198 | `split(sep)` gives at least one piece, no piece holds the separator, and joining the pieces with it restores the string |
| `Text.Field` | mod/initialisation.py:194 | `line.split('=')[1]` exists exactly when the line holds `=`; it is the text right after the first `=`, up to the next `=` or the end of the line, and holds no `=` |
| `Text.SecondPiece` | mod/initialisation.py:194 | the second of the pieces joined into a string starts right after the first separator and ends at the next separator or at the end |
| `Text.IsSpaceLine` | mod/initialisation.py:152 | `isspace` holds exactly for a non-empty string that `strip` empties |
| `Text.Words` | mod/initialisation.py:178 | `split()` yields non-empty runs of non-whitespace characters, and at least one exactly when the string holds a non-whitespace character |
| `Text.WordsRoundTrip` | mod/initialisation.py:178 | joining the words of `split()` with single spaces gives the string with leading and trailing whitespace removed and every inner whitespace run turned into one space, as the independent character-by-character definition `Text.Spaced` states |
| `Force.Validate` | mod/initialisation.py:72-119 | the outcome of checking a force definition: a missing TYPE and an incomplete wave raise ValueError, RANDOM raises NotImplementedError, a START or STOP outside the time span raises ValueError (START first), an accepted wave gets START 0.0 and STOP -1.0 where they were missing, a complete wave whose given window ends lie inside the span is accepted, on an empty grid a given START or STOP of a wave raises IndexError, and any other TYPE passes unchanged |
| `Force.WaveAccepted` | mod/initialisation.py:41-119 | a complete SIN or COS definition whose given window ends lie inside the span is sampled on a non-empty grid; on an empty grid `time[-1]` raises IndexError |
| `Force.Set` | mod/initialisation.py:41-67 | a refused definition raises the error of `__setattr__`; a TYPE that skips the checks raises KeyError for a missing STOP, then START, and with both succeeds with the all-zero force; a negative STOP on an empty grid raises IndexError; the stored force keeps the body number, the grid and the completed definition and has one sample per grid time |
| `Force.SamplesVanishOutsideWindow` | mod/initialisation.py:44-64 | the sampled force has one value per grid time and is zero at every grid time outside [START, STOP] |
| `Force.SamplesInsideWindow` | mod/initialisation.py:53-64 | inside the window a SIN or COS force samples `P0 * sin(OMEGA * (t - START))`, or cos respectively |
| `Force.NoWaveNoForce` | mod/initialisation.py:45-67 | a TYPE other than SIN and COS that passes `set` yields the all-zero force |
| `Force.EmptyWindowNoForce` | mod/initialisation.py:53-64 | a window whose start lies after its stop yields the all-zero force |
| `Force.WaveWindowDefaults` | mod/initialisation.py:46-103 | a missing START becomes 0.0 and a missing STOP the last grid time; on a grid from 0.0 the window of an accepted wave lies within the time span |
| `Force.UncheckedTypeNeedsWindow` | mod/initialisation.py:41-67 | NONE and every other TYPE except SIN, COS and RANDOM skip validation, so `set` raises KeyError for a missing STOP, then for a missing START; with both it succeeds and yields the all-zero force |
| `Force.IncompleteWaveRaises` | mod/initialisation.py:86-119 | a SIN or COS definition without OMEGA or P0 raises ValueError once its window passes the range checks, on an empty grid too when neither START nor STOP is given |
| `Force.Segment` | mod/initialisation.py:70 | inside the grid the interpolated value lies on the straight line between the two samples around `x` |
| `Force.Interp` | mod/initialisation.py:70 | `np.interp` as numpy documents it: the first sample left of the grid, the last one right of it, the straight line between neighbouring samples inside |
| `Force.Get` | mod/initialisation.py:69-70 | `get` succeeds exactly on a non-empty grid and then interpolates the samples; on an empty grid it raises ValueError |
| `Force.InterpAtGrid` | mod/initialisation.py:70 | interpolating at a grid time returns the sample stored for that time |
| `Force.GetVanishesOutsideWindow` | mod/initialisation.py:69-70 | `get` at a grid time outside the window of a sampled force returns exactly 0.0 |
| `Force.GetBetweenGridTimes` | mod/initialisation.py:53-70 | between grid times `get` need not vanish outside the window: COS with START 1.0 on the grid [0, 1] gives `get(0.5) == P0 / 2` |
| `Parser.Reals` | mod/initialisation.py:196-199 | the conversion of a comma list succeeds exactly when every piece converts, with one value per piece in order |
| `Parser.ParseReals` | mod/initialisation.py:197-199 | the loop appending `float(s)` per piece computes `Reals`, failing at the first bad piece |
| `Parser.Couplings` | mod/initialisation.py:206-213 | an accepted CPL list has one converted entry per piece and excludes the body's own number; an entry equal to that number raises ValueError; if every entry converts and none is that number, the list is accepted |
| `Parser.ParseCouplings` | mod/initialisation.py:208-213 | the loop appending `int(c)` and rejecting the body's own number computes `Couplings` |
| `Parser.ProcessLine` | mod/initialisation.py:144-152 | a line starting with `**` changes nothing; a line without `**` goes to the `elif` chain unless it is whitespace alone; no line removes a body, rewrites a body other than the active one or changes the time grid except by laying it out |
| `Parser.Dispatch` | mod/initialisation.py:154-246 | `*SIMULATION` sets the simulation flag and nothing else; a successful branch of the `elif` chain appends at most one body, changes no entry other than the aliases of the active body, and changes the time grid only on `*ENDSIMULATION` |
| `Parser.SimulationOpens` | mod/initialisation.py:154-155 | a `*SIMULATION` line opens the simulation block and leaves every other part of the state as it was |
| `Parser.SimulationKeys` | mod/initialisation.py:157-161 | inside the simulation block a TMAX or TSTEP line stores `float()` of the text after `=` in its own attribute; it raises IndexError without `=` and ValueError when `float()` refuses the text |
| `Parser.ForceOpens` | mod/initialisation.py:225-226 | a `*FORCE` line opens the force block and leaves every other part of the state as it was |
| `Parser.ForceKeyIsNoOtherKey` | mod/initialisation.py:154-246 | a TYPE, OMEGA, P0, START or STOP line matches no block marker and no simulation or body key of the chain |
| `Parser.ForceKeyLine` | mod/initialisation.py:233-246 | inside the force block a force key line reaches the force dictionary, whichever other blocks are open |
| `Parser.SimulationKey` | mod/initialisation.py:157-164 | a key line of the simulation block changes only TMAX, TSTEP or the animation flag; without `=` it raises IndexError; TMAX and TSTEP store `float()` of the text after `=` in their own attribute, or raise ValueError |
| `Parser.EndSimulation` | mod/initialisation.py:166-172 | `*ENDSIMULATION` raises AttributeError for a missing TSTEP, then ValueError for a non-positive one, then for TMAX the same; it succeeds exactly when both are set and positive, storing the grid from 0.0 in steps of TSTEP below TMAX and its length and closing the block |
| `Parser.BeginBody` | mod/initialisation.py:175-178 | `*BODY` raises IndexError without a second word and ValueError when `int` refuses it; otherwise a fresh body with that number becomes active and the list is untouched |
| `Parser.EndBody` | mod/initialisation.py:180-191 | `*ENDBODY` succeeds exactly when the three list sizes agree, raising ValueError naming the body otherwise; it appends the active body with its damping coefficients, one more alias of the active object |
| `Parser.BodyKey` | mod/initialisation.py:193-222 | a body key raises IndexError without `=`; it replaces exactly one key field and never the number, the force or the damping coefficients; a stored CPL list never holds the body's own number |
| `Parser.ScalarKeys` | mod/initialisation.py:193-222 | MASS, X0, V0 and XLOC store one `float()` of the value in their own field, or raise its ValueError |
| `Parser.BodyLine` | mod/initialisation.py:193-222 | a body key line raises NameError without an active body; otherwise it raises exactly what the key raises, or the active body and all its aliases in the list become the body the key produces, and nothing else changes |
| `Parser.EndForce` | mod/initialisation.py:228-232 | `*ENDFORCE` raises without an active body, then without a time grid, then with the error of `set`; on success the active body and its aliases hold the sampled force and the dictionary is emptied and closed |
| `Parser.EndForceSetsForce` | mod/initialisation.py:228-232 | an `*ENDFORCE` line reaches that branch: the same errors, and on success the active body holds `set`'s force, the aliases are updated, the dictionary is empty and closed and the grid is unchanged |
| `Parser.ForceKey` | mod/initialisation.py:233-246 | a force key raises IndexError without `=`; TYPE stores the stripped text and cannot fail; the other keys store one `float()` of the value under exactly one key, succeeding exactly when it converts |
| `Parser.NumericForceKeys` | mod/initialisation.py:236-246 | OMEGA, P0, START and STOP each store the converted value under their own key |
| `Parser.ForceLine` | mod/initialisation.py:233-246 | a force key line changes only the force dictionary; it raises exactly what the key raises, and otherwise the dictionary becomes the key's result |
| `Parser.ScanLines` | mod/initialisation.py:143-246 | the loop over the file's lines computes `Scan`: it stops with the exception of the first line that raises |
| `Parser.CommentLineIgnored` | mod/initialisation.py:144-147 | a line that starts with `**` changes nothing |
| `Parser.InlineCommentCut` | mod/initialisation.py:148-150 | a later `**` cuts the line: the scanner treats the stripped text before it, which holds no `**`, as the whole line |
| `Parser.BlankLineIgnored` | mod/initialisation.py:152 | a line of whitespace alone changes nothing |
| `Parser.LastListLineWins` | mod/initialisation.py:196-213 | a second STIFF, ZTA or CPL line in a body block replaces the list of the first: the state after both lines is the state after the second alone |
| `Parser.CouplingsStopAtSelf` | mod/initialisation.py:208-213 | the CPL loop raises ValueError at the first entry equal to the body's number once the entries before it converted to other numbers, whatever follows |
| `Parser.SelfCouplingRaises` | mod/initialisation.py:206-213 | a CPL entry equal to the active body's number, after entries that converted to other numbers, raises ValueError naming the body |
| `Parser.AcceptedCouplingsExcludeOwnNumber` | mod/initialisation.py:206-213 | an accepted CPL line keeps the body number, leaves it out of the coupling list and stores one entry per piece |
| `Parser.EndBodyChecksCounts` | mod/initialisation.py:180-191 | `*ENDBODY` accepts the active body exactly when its STIFF, ZTA and CPL lists have one size, and otherwise raises ValueError naming it; an accepted body gets its damping coefficients and is appended, the earlier entries staying intact; without an active body it raises |
| `Parser.AniStyleNonEmptyIsTrue` | mod/initialisation.py:163-164 | ANISTYLE sets the animation flag to true exactly when the text after `=` is non-empty |
| `Parser.EndSimulationBuildsGrid` | mod/initialisation.py:166-172 | `*ENDSIMULATION` succeeds exactly when TSTEP and TMAX are positive, and then stores the time grid and its length and closes the block; otherwise it raises ValueError |
| `Parser.ScanWellFormed` | mod/initialisation.py:126-248 | after any completed scan the base body is still first and unchanged, and every later body passed the `*ENDBODY` checks: equal list sizes, no coupling to itself, damping computed from its own data |
| `Assembly.Built` | mod/initialisation.py:303-317 | after the assembly the base is deleted from the list when it is first and `n_bodies` becomes the new length, `n_ds` counts every CPL entry, and the matrices have one row per remaining body |
| `Assembly.Assemble` | mod/initialisation.py:250-317 | `couple_bodies` succeeds exactly when the body list is non-empty, no coupling entry raises and every body is coupled; the base is then removed from the list, and the body count becomes the new list length |
| `Assembly.CoefIsLastWriter` | mod/initialisation.py:270-277 | a cell of the relation arrays holds a coefficient exactly when some coupling entry wrote it, and then it holds the value of the last entry that did |
| `Assembly.CoefSymmetric` | mod/initialisation.py:272-277 | every coupling entry is recorded in both directions, so the stored coefficients are symmetric |
| `Assembly.DeclCount` | mod/initialisation.py:264-271 | `n_ds` counts every coupling entry of every body |
| `Assembly.DeclErrorRaises` | mod/initialisation.py:270-277 | the first coupling entry that raises (a bad index, a scalar `c` or `k`, a short list) decides the exception of the whole assembly |
| `Assembly.ConnectedIffMentioned` | mod/initialisation.py:265-286 | when no entry raises, a body has a relation exactly when it has a coupling entry of its own or appears in some body's list |
| `Assembly.AssembledShape` | mod/initialisation.py:255-317 | after a successful assembly, M, C and K have one row and column per remaining body; M is diagonal with the masses; C, K and the relations are symmetric |
| `Assembly.DiagonalIsRowSum` | mod/initialisation.py:289-294 | a diagonal entry of C or K is the sum of the body's stored coefficients over all its relations, the base included |
| `Assembly.OffDiagonalIsRowConstant` | mod/initialisation.py:295-317 | every entry right of the diagonal in one row is minus the sum of the body's coefficients to moving bodies, whether or not the two bodies are coupled, and the mirrored entry equals it |
| `Assembly.UnconnectedBodyRejected` | mod/initialisation.py:280-286 | the first body that no coupling mentions makes the assembly raise ValueError naming it |
| `Assembly.MentionedBodiesAssemble` | mod/initialisation.py:280-286 | when every body is mentioned and no entry raises, the assembly succeeds |
| `Assembly.BaseMustBeCoupled` | mod/initialisation.py:280-286 | unless some body couples to position 0, the base itself makes the assembly raise |
| `Assembly.TwoBodyExample` | mod/initialisation.py:250-317 | base, body 1 and body 2 with springs 10 and 5 give `M = [[1,0],[0,2]]`, `C = [[1.5,-0.5],[-0.5,0.5]]`, `K = [[15,-5],[-5,5]]` and two coupling entries |
| `Assembly.ThreeBodyChainAsWritten` | mod/initialisation.py:295-301 | in the chain base, 1, 2, 3 the uncoupled bodies 1 and 3 get the stiffness entry -5 |
| `Assembly.TextbookSymmetric` | mod/initialisation.py:295-301 | the intended matrix, whose entries off the diagonal are minus the coupling coefficient between the two bodies, is symmetric without mirroring |
| `Assembly.TextbookUncoupledIsZero` | mod/initialisation.py:295-301 | in the intended matrix two distinct uncoupled bodies have a zero entry |
| `Assembly.ThreeBodyChainIntended` | mod/initialisation.py:295-301 | in the intended stiffness matrix of the same chain, bodies 1 and 3 have the entry 0 |
| `Assembly.TwoMovingBodiesAgree` | mod/initialisation.py:288-317 | for the base and two moving bodies, neither related to itself, every final entry as written equals the intended one |
| `Input.AnyInRow` | mod/initialisation.py:284 | the loop finds a relation in row `i` exactly when the row holds one |
| `Input.RowTotals` | mod/initialisation.py:289-301 | the loop over a row sums the stored coefficients over every relation (diagonal) or minus the sum over the relations to moving bodies (right of the diagonal) |
| `Input.DropFirst` | mod/initialisation.py:306-308 | `A[1:,1:]` is a new array one smaller in each dimension, holding the entries shifted by one |
| `Input.Mirror` | mod/initialisation.py:312-317 | copies the upper half onto the lower half of C and K and leaves the upper half and the diagonal alone |
| `Input.RecordRelations` | mod/initialisation.py:264-277 | the relation loop either raises the exception `Assemble` raises, or leaves the relation arrays holding `Related` and `Stored` for all entries, with the count of all entries |
| `Input.RecordBody` | mod/initialisation.py:270-277 | the loop over one body's coupling entries either raises the exception `Assemble` raises, or extends the relation arrays by that body's entries and counts them |
| `Input.FillMatrices` | mod/initialisation.py:279-301 | the second loop raises exactly for the first unconnected body, naming it, and otherwise fills M with the masses and C and K with the row sums |
| `Input.Couple` | mod/initialisation.py:250-317 | the arrays computed in place are exactly the matrices of `Assemble`, or it returns the exception `Assemble` raises |
| `Input.InputData.constructor` | mod/initialisation.py:129-133 | a fresh object holds only the base body and a body count of 0 |
| `Input.InputData.Load` | mod/initialisation.py:126-248 | reading a file yields an object whose attributes hold the state `Scan` reaches, or the exception of the first line that raises |
| `Input.InputData.CoupleBodies` | mod/initialisation.py:250-317 | the new body list, body count, `n_ds`, relations and matrices are those of `Assemble` of the old body list; on an exception the body list and count stay as they were; the simulation settings never change |
| `Input.InputData.GetInitCond` | mod/initialisation.py:319-328 | the velocities and displacements of the bodies, padded with zeros to `n_bodies`; IndexError when the list is longer |
| `Input.InputData.GetForceArray` | mod/initialisation.py:330-337 | the force of every body, in list order |

## Left out

- Opening, reading and closing the input file (lines 137-143 and 248) are not modelled. The
  scanner receives the list of lines that `readlines()` returns.
- The `print` warnings of `__setattr__` (lines 90-92 and 99-102) are not modelled.
- `float()`, `int()`, `np.sqrt`, `np.sin` and `np.cos` are uninterpreted parameters, not computed.
- IEEE floating point is not modelled. Numbers are exact reals, so `np.arange` has exactly
  `ceil(TMAX / TSTEP)` points.
- `np.interp` is modelled for an increasing grid only. The time grid always is one.
- `ForceFunction` is a value that `set` returns once; the object its constructor creates before
  `set` runs is not modelled. The edit `__setattr__` makes to the caller's dictionary is the
  completed definition `Validate` returns.
- `InputData.__getattr__` (lines 339-340) is modelled as `Option`. Reading an attribute that was
  never set gives `MissingAttribute` where the scanner reads one.
- `Input.InputData.CoupleBodies`: it does not state `n_ds`, the relations or the matrices after an
  exception. The source leaves them half updated at that point, and nothing reads them afterwards.
- `Text.IsSpace` lists the characters for which Python's `str.isspace` holds by code point. That
  set comes from the Unicode database of the Python version in use; the list is the one of current
  Unicode versions.
- The numpy `int` array of coupling numbers is modelled as a sequence of unbounded integers.
- mod/rungekutta4.py, mod/visualisation.py and main.py (the integration, the plots and the
  driver) are not part of this model.
