/**
 * What `InputData.couple_bodies` (initialisation.py:250-317) computes, as functions of the body
 * list: the coupling relations, the mass, damping and stiffness matrices, and the errors it
 * raises.  The imperative version in module `Input` is proved to compute exactly this.
 *
 * Every entry `k` of a body's `coupl` list is a declaration: it relates the body's list position
 * `i` to position `k` (numpy wraps a negative `k` once) and stores the declaration's damping and
 * stiffness coefficient in both cells `(i, k)` and `(k, i)`.  Later declarations overwrite earlier
 * ones.
 */
module Assembly {
  import opened Wrappers
  import opened Errors
  import opened Bodies

  /** One coupling declaration: row, coupled index as written, and the two coefficient reads. */
  datatype Decl = Decl(row: nat, target: int, c: Result<real, Error>, k: Result<real, Error>)

  /** The two coefficient matrices. */
  datatype Part = DampingPart | StiffnessPart

  /** The declarations of the body at list position `i`, in list order. */
  function BodyDecls(b: MassBody, i: nat): (r: seq<Decl>)
    ensures |r| == |b.coupl|
  {
    seq(|b.coupl|, j requires 0 <= j < |b.coupl| =>
          Decl(i, b.coupl[j], At(b.c, j, IndexOutOfRange), At(b.k, j, NotSubscriptable)))
  }

  /** The declarations of the first `m` bodies, body by body. */
  function DeclsUpTo(bodies: seq<MassBody>, m: nat): seq<Decl>
    requires m <= |bodies|
  {
    if m == 0 then [] else DeclsUpTo(bodies, m - 1) + BodyDecls(bodies[m - 1], m - 1)
  }

  function Decls(bodies: seq<MassBody>): seq<Decl> {
    DeclsUpTo(bodies, |bodies|)
  }

  /** The number of coupling entries over all bodies. */
  function TotalCouplings(bodies: seq<MassBody>): nat {
    if |bodies| == 0 then 0 else TotalCouplings(bodies[..|bodies| - 1]) + |bodies[|bodies| - 1].coupl|
  }

  /** A numpy index that is valid for an axis of length `n`. */
  predicate InRange(t: int, n: nat) {
    -(n as int) <= t < n
  }

  /** The position a valid numpy index denotes. */
  function Norm(t: int, n: nat): int {
    if t < 0 then t + n else t
  }

  /** The exception the declaration raises, if any: bad index, then `c[i_con]`, then `k[i_con]`. */
  function DeclError(d: Decl, n: nat): Option<Error> {
    if !InRange(d.target, n) then Some(IndexOutOfRange)
    else if d.c.Failure? then Some(d.c.error)
    else if d.k.Failure? then Some(d.k.error)
    else None
  }

  /** The exception of the first declaration that raises. */
  function FirstDeclError(ds: seq<Decl>, n: nat): (r: Option<Error>)
    ensures r.None? <==> forall j | 0 <= j < |ds| :: DeclError(ds[j], n).None?
  {
    if |ds| == 0 then None
    else
      match FirstDeclError(ds[..|ds| - 1], n)
      case Some(e) => Some(e)
      case None =>
        assert forall j | 0 <= j < |ds| - 1 :: ds[..|ds| - 1][j] == ds[j];
        DeclError(ds[|ds| - 1], n)
  }

  function ValueOf(r: Result<real, Error>): real {
    match r
    case Success(v) => v
    case Failure(_) => 0.0
  }

  /** The coefficient a declaration stores. */
  function Value(d: Decl, p: Part): real {
    match p
    case DampingPart => ValueOf(d.c)
    case StiffnessPart => ValueOf(d.k)
  }

  /** Whether declaration `d` writes cell `(a, b)`. */
  predicate Touches(d: Decl, n: nat, a: int, b: int) {
    (d.row == a && Norm(d.target, n) == b) || (Norm(d.target, n) == a && d.row == b)
  }

  /** The coefficient stored in cell `(a, b)` after all of `ds`: the last writer's, if any. */
  function Coef(ds: seq<Decl>, n: nat, p: Part, a: int, b: int): Option<real> {
    if |ds| == 0 then None
    else if Touches(ds[|ds| - 1], n, a, b) then Some(Value(ds[|ds| - 1], p))
    else Coef(ds[..|ds| - 1], n, p, a, b)
  }

  /** `_relations[a, b]`: some declaration wrote the cell. */
  predicate Related(ds: seq<Decl>, n: nat, a: int, b: int) {
    exists j | 0 <= j < |ds| :: Touches(ds[j], n, a, b)
  }

  /** `_relations_C[a, b]` or `_relations_K[a, b]`: zero where nothing was written. */
  function Stored(ds: seq<Decl>, n: nat, p: Part, a: int, b: int): real {
    Coef(ds, n, p, a, b).GetOr(0.0)
  }

  /** The sum of the stored coefficients of row `i` over the columns `lo .. hi - 1` it relates to. */
  function RowSum(ds: seq<Decl>, n: nat, p: Part, i: int, lo: int, hi: int): real
    decreases hi - lo
  {
    if hi <= lo then 0.0
    else RowSum(ds, n, p, i, lo, hi - 1) + (if Related(ds, n, i, hi - 1) then Stored(ds, n, p, i, hi - 1) else 0.0)
  }

  /**
   * Entry `(i, k)` of the damping or stiffness matrix before the base is removed and the lower
   * half mirrored: the diagonal sums the row over every relation, each entry right of the
   * diagonal is minus the sum over the relations to moving bodies, the lower half stays zero.
   */
  function FullEntry(ds: seq<Decl>, n: nat, p: Part, i: int, k: int): real {
    if i == k then RowSum(ds, n, p, i, 0, n)
    else if i < k then -RowSum(ds, n, p, i, 1, n)
    else 0.0
  }

  /** Entry `(a, b)` after dropping the first `s` rows and columns and mirroring the upper half. */
  function FinalEntry(ds: seq<Decl>, n: nat, p: Part, s: nat, a: int, b: int): real {
    if a <= b then FullEntry(ds, n, p, a + s, b + s) else FullEntry(ds, n, p, b + s, a + s)
  }

  /** Body position `i` is coupled to something: `any(self._relations[i, :])`. */
  predicate Connected(ds: seq<Decl>, n: nat, i: int) {
    exists j | 0 <= j < n :: Related(ds, n, i, j)
  }

  /** The first body position from `from` on that is coupled to nothing. */
  function FirstUnconnected(ds: seq<Decl>, n: nat, from: nat): (r: Option<nat>)
    requires from <= n
    ensures r.None? <==> forall i | from <= i < n :: Connected(ds, n, i)
    ensures r.Some? ==> from <= r.value < n && !Connected(ds, n, r.value)
                        && forall i | from <= i < r.value :: Connected(ds, n, i)
    decreases n - from
  {
    if from == n then None
    else if !Connected(ds, n, from) then Some(from)
    else FirstUnconnected(ds, n, from + 1)
  }

  function SquareMatrix(dim: nat, f: (nat, nat) -> real): (r: seq<seq<real>>)
    ensures |r| == dim && forall a | 0 <= a < dim :: |r[a]| == dim && forall b | 0 <= b < dim :: r[a][b] == f(a, b)
  {
    seq(dim, (a: nat) => seq(dim, (b: nat) => f(a, b)))
  }

  /** The state `couple_bodies` leaves behind. */
  datatype Assembled = Assembled(
    bodies: seq<MassBody>, nBodies: int, nDs: nat,
    relations: seq<seq<bool>>, m: seq<seq<real>>, c: seq<seq<real>>, k: seq<seq<real>>)

  /** The number of leading rows and columns removed: one when the first body is the base. */
  function Shift(bodies: seq<MassBody>): nat
    requires |bodies| > 0
  {
    if bodies[0].number == 0 then 1 else 0
  }

  /** `self._relations`: which pairs of body positions some declaration relates. */
  function RelationMatrix(bodies: seq<MassBody>): (r: seq<seq<bool>>)
    ensures |r| == |bodies|
    ensures forall a | 0 <= a < |bodies| :: |r[a]| == |bodies|
                                            && forall b | 0 <= b < |bodies| :: r[a][b] == Related(Decls(bodies), |bodies|, a, b)
  {
    var n, ds := |bodies|, Decls(bodies);
    seq(n, a => seq(n, b => Related(ds, n, a, b)))
  }

  /** `self.M` at the end: the masses of the remaining bodies on the diagonal. */
  function MassMatrix(bodies: seq<MassBody>): (r: seq<seq<real>>)
    requires |bodies| > 0
    ensures var dim := |bodies| - Shift(bodies);
            && |r| == dim
            && forall a | 0 <= a < dim ::
                 |r[a]| == dim && forall b | 0 <= b < dim :: r[a][b] == if a == b then bodies[a + Shift(bodies)].m else 0.0
  {
    var n, s := |bodies|, Shift(bodies);
    SquareMatrix(n - s, (a: nat, b: nat) => if a == b && a + s < n then bodies[a + s].m else 0.0)
  }

  /** `self.C` or `self.K` at the end. */
  function CoefMatrix(bodies: seq<MassBody>, p: Part): (r: seq<seq<real>>)
    requires |bodies| > 0
    ensures var dim := |bodies| - Shift(bodies);
            && |r| == dim
            && forall a | 0 <= a < dim ::
                 |r[a]| == dim && forall b | 0 <= b < dim :: r[a][b] == FinalEntry(Decls(bodies), |bodies|, p, Shift(bodies), a, b)
  {
    var n, ds, s := |bodies|, Decls(bodies), Shift(bodies);
    SquareMatrix(n - s, (a: nat, b: nat) => FinalEntry(ds, n, p, s, a, b))
  }

  /** The state after a run of `couple_bodies` that raises nothing. */
  function Built(bodies: seq<MassBody>, nBodies: int): (r: Assembled)
    requires |bodies| > 0
    // the base is deleted from the list when it is first, and `n_bodies` then recounted
    ensures r.bodies == bodies[Shift(bodies)..]
    ensures r.nBodies == if bodies[0].number == 0 then |bodies| - 1 else nBodies
    // `n_ds` counts every CPL entry of every body
    ensures r.nDs == TotalCouplings(bodies)
    // one matrix row per remaining body, one relation row per body before the deletion
    ensures |r.m| == |r.c| == |r.k| == |r.bodies| && |r.relations| == |bodies|
  {
    var n, s := |bodies|, Shift(bodies);
    DeclCount(bodies, n);
    assert bodies[..n] == bodies;
    Assembled(bodies[s..], if s == 1 then n - 1 else nBodies, |Decls(bodies)|, RelationMatrix(bodies),
              MassMatrix(bodies), CoefMatrix(bodies, DampingPart), CoefMatrix(bodies, StiffnessPart))
  }

  /**
   * `couple_bodies` on a body list, with `nBodies` the previous value of `self.n_bodies`: the
   * first declaration error, else the first body coupled to nothing, else the matrices.
   */
  function Assemble(bodies: seq<MassBody>, nBodies: int): (r: Result<Assembled, Error>)
    ensures r.Success? <==> |bodies| > 0 && FirstDeclError(Decls(bodies), |bodies|).None?
                            && forall i | 0 <= i < |bodies| :: Connected(Decls(bodies), |bodies|, i)
    ensures r.Success? ==> r.value == Built(bodies, nBodies)
    ensures r.Success? ==> r.value.bodies == bodies[Shift(bodies)..]
    ensures r.Success? && Shift(bodies) == 1 ==> r.value.nBodies == |r.value.bodies|
  {
    var n := |bodies|;
    var ds := Decls(bodies);
    match FirstDeclError(ds, n)
    case Some(e) => Failure(e)
    case None =>
      match FirstUnconnected(ds, n, 0)
      case Some(i) => Failure(Unconnected(bodies[i].number))
      case None => if n == 0 then Failure(IndexOutOfRange) else Success(Built(bodies, nBodies))
  }

  /** The three outcomes of `Assemble`, one lemma each for callers that reach them step by step. */
  lemma AssembleUnconnected(bodies: seq<MassBody>, nBodies: int)
    requires FirstDeclError(Decls(bodies), |bodies|).None? && FirstUnconnected(Decls(bodies), |bodies|, 0).Some?
    ensures Assemble(bodies, nBodies)
            == Failure(Unconnected(bodies[FirstUnconnected(Decls(bodies), |bodies|, 0).value].number))
  {
  }

  lemma AssembleEmpty(nBodies: int)
    ensures Assemble([], nBodies) == Failure(IndexOutOfRange)
  {
  }

  lemma AssembleBuilt(bodies: seq<MassBody>, nBodies: int)
    requires |bodies| > 0 && FirstDeclError(Decls(bodies), |bodies|).None?
    requires FirstUnconnected(Decls(bodies), |bodies|, 0).None?
    ensures Assemble(bodies, nBodies) == Success(Built(bodies, nBodies))
  {
  }

  // ---------------------------------------------------------------------------------------------
  // The relations.

  /**
   * Cell `(a, b)` holds a coefficient exactly when some declaration wrote it, and then it holds
   * the coefficient of the last declaration that did.
   */
  lemma {:induction false} CoefIsLastWriter(ds: seq<Decl>, n: nat, p: Part, a: int, b: int)
    ensures Coef(ds, n, p, a, b).Some? <==> Related(ds, n, a, b)
    ensures Coef(ds, n, p, a, b).Some? ==>
              exists j | 0 <= j < |ds| :: Touches(ds[j], n, a, b) && Coef(ds, n, p, a, b).value == Value(ds[j], p)
                                          && forall l | j < l < |ds| :: !Touches(ds[l], n, a, b)
  {
    if |ds| > 0 {
      var front := ds[..|ds| - 1];
      assert forall j | 0 <= j < |front| :: front[j] == ds[j];
      if !Touches(ds[|ds| - 1], n, a, b) {
        CoefIsLastWriter(front, n, p, a, b);
        if Related(ds, n, a, b) {
          var j :| 0 <= j < |ds| && Touches(ds[j], n, a, b);
          assert Touches(front[j], n, a, b);
        }
      }
    }
  }

  /** Each declaration is recorded in both directions. */
  lemma {:induction false} CoefSymmetric(ds: seq<Decl>, n: nat, p: Part, a: int, b: int)
    ensures Coef(ds, n, p, a, b) == Coef(ds, n, p, b, a)
  {
    if |ds| > 0 {
      CoefSymmetric(ds[..|ds| - 1], n, p, a, b);
    }
  }

  /** `n_ds` counts every coupling entry of every body. */
  lemma {:induction false} DeclCount(bodies: seq<MassBody>, m: nat)
    requires m <= |bodies|
    ensures |DeclsUpTo(bodies, m)| == TotalCouplings(bodies[..m])
  {
    if m > 0 {
      DeclCount(bodies, m - 1);
      assert bodies[..m][..m - 1] == bodies[..m - 1];
    }
  }

  /** Where the declarations of body `i` sit in the declaration list. */
  lemma {:induction false} DeclsAt(bodies: seq<MassBody>, m: nat, i: nat, j: nat)
    requires i < m <= |bodies| && j < |bodies[i].coupl|
    ensures TotalCouplings(bodies[..i]) + j < |DeclsUpTo(bodies, m)|
    ensures DeclsUpTo(bodies, m)[TotalCouplings(bodies[..i]) + j] == BodyDecls(bodies[i], i)[j]
  {
    DeclCount(bodies, m - 1);
    if i < m - 1 {
      DeclsAt(bodies, m - 1, i, j);
    }
  }

  /** Every declaration stems from an entry of a body's coupling list. */
  lemma {:induction false} DeclsOrigin(bodies: seq<MassBody>, m: nat, x: nat)
    requires m <= |bodies| && x < |DeclsUpTo(bodies, m)|
    ensures var d := DeclsUpTo(bodies, m)[x];
            d.row < m && exists j | 0 <= j < |bodies[d.row].coupl| :: d == BodyDecls(bodies[d.row], d.row)[j]
  {
    var front := DeclsUpTo(bodies, m - 1);
    if x < |front| {
      DeclsOrigin(bodies, m - 1, x);
    } else {
      var j := x - |front|;
      assert DeclsUpTo(bodies, m)[x] == BodyDecls(bodies[m - 1], m - 1)[j];
    }
  }

  /** One more declaration: it relates and overwrites exactly the two cells it touches. */
  lemma RecordOne(ds: seq<Decl>, d: Decl, n: nat, p: Part, a: int, b: int)
    ensures Related(ds + [d], n, a, b) <==> Related(ds, n, a, b) || Touches(d, n, a, b)
    ensures Stored(ds + [d], n, p, a, b) == if Touches(d, n, a, b) then Value(d, p) else Stored(ds, n, p, a, b)
  {
    var all := ds + [d];
    assert all[..|ds|] == ds;
    assert forall j | 0 <= j < |ds| :: all[j] == ds[j];
    if Related(all, n, a, b) && !Touches(d, n, a, b) {
      var j :| 0 <= j < |all| && Touches(all[j], n, a, b);
      assert Touches(ds[j], n, a, b);
    }
    if Related(ds, n, a, b) {
      var j :| 0 <= j < |ds| && Touches(ds[j], n, a, b);
      assert Touches(all[j], n, a, b);
    }
    if Touches(d, n, a, b) {
      assert Touches(all[|ds|], n, a, b);
    }
  }

  /** The declarations of the first `i` bodies come first among those of the first `m`. */
  lemma {:induction false} DeclsPrefix(bodies: seq<MassBody>, i: nat, m: nat)
    requires i <= m <= |bodies|
    ensures |DeclsUpTo(bodies, i)| <= |DeclsUpTo(bodies, m)|
    ensures DeclsUpTo(bodies, m)[..|DeclsUpTo(bodies, i)|] == DeclsUpTo(bodies, i)
    decreases m - i
  {
    if i < m {
      DeclsPrefix(bodies, i, m - 1);
      var short, mid := DeclsUpTo(bodies, i), DeclsUpTo(bodies, m - 1);
      assert (mid + BodyDecls(bodies[m - 1], m - 1))[..|short|] == mid[..|short|];
    }
  }

  /** Once a prefix of the declarations raises, the whole list raises the same exception. */
  lemma {:induction false} FirstDeclErrorExtends(ds: seq<Decl>, q: nat, n: nat)
    requires q <= |ds| && FirstDeclError(ds[..q], n).Some?
    ensures FirstDeclError(ds, n) == FirstDeclError(ds[..q], n)
    decreases |ds| - q
  {
    if q < |ds| {
      assert ds[..q + 1][..q] == ds[..q];
      FirstDeclErrorExtends(ds, q + 1, n);
    } else {
      assert ds[..q] == ds;
    }
  }

  lemma FirstDeclErrorAt(bodies: seq<MassBody>, i: nat, j: nat)
    requires i < |bodies| && j < |bodies[i].coupl|
    requires FirstDeclError(DeclsUpTo(bodies, i) + BodyDecls(bodies[i], i)[..j], |bodies|).None?
    ensures FirstDeclError(Decls(bodies), |bodies|) == DeclError(BodyDecls(bodies[i], i)[j], |bodies|)
            || DeclError(BodyDecls(bodies[i], i)[j], |bodies|).None?
  {
    var n := |bodies|;
    var pre, own := DeclsUpTo(bodies, i), BodyDecls(bodies[i], i);
    var upto := pre + own[..j + 1];
    assert upto[..|upto| - 1] == pre + own[..j];
    assert FirstDeclError(upto, n) == DeclError(own[j], n);
    if DeclError(own[j], n).Some? {
      DeclsPrefix(bodies, i + 1, n);
      var all := Decls(bodies);
      assert DeclsUpTo(bodies, i + 1) == pre + own;
      assert all[..|upto|] == upto by {
        assert all[..|pre + own|] == pre + own;
        assert (pre + own)[..|upto|] == upto;
      }
      FirstDeclErrorExtends(all, |upto|, n);
    }
  }

  /**
   * The first declaration that raises decides the outcome: entry `j` of body `i` raising, after
   * every earlier entry passed, is the exception of the whole assembly.
   */
  lemma DeclErrorRaises(bodies: seq<MassBody>, nBodies: int, i: nat, j: nat)
    requires i < |bodies| && j < |bodies[i].coupl|
    requires FirstDeclError(DeclsUpTo(bodies, i) + BodyDecls(bodies[i], i)[..j], |bodies|).None?
    requires DeclError(BodyDecls(bodies[i], i)[j], |bodies|).Some?
    ensures Assemble(bodies, nBodies) == Failure(DeclError(BodyDecls(bodies[i], i)[j], |bodies|).value)
  {
    FirstDeclErrorAt(bodies, i, j);
  }

  /** Entry `j` of body `i`'s coupling list relates the two positions, both ways. */
  lemma CouplingIsRelated(bodies: seq<MassBody>, i: nat, j: nat)
    requires i < |bodies| && j < |bodies[i].coupl|
    ensures var n := |bodies|;
            Related(Decls(bodies), n, i, Norm(bodies[i].coupl[j], n))
            && Related(Decls(bodies), n, Norm(bodies[i].coupl[j], n), i)
  {
    DeclsAt(bodies, |bodies|, i, j);
    var x := TotalCouplings(bodies[..i]) + j;
    assert Touches(Decls(bodies)[x], |bodies|, i, Norm(bodies[i].coupl[j], |bodies|));
  }

  /** Body position `i` has a coupling entry of its own or appears in some body's list. */
  predicate Mentioned(bodies: seq<MassBody>, i: nat)
    requires i < |bodies|
  {
    |bodies[i].coupl| > 0
    || exists l, j | 0 <= l < |bodies| && 0 <= j < |bodies[l].coupl| :: Norm(bodies[l].coupl[j], |bodies|) == i
  }

  /** When no declaration raises, a body is coupled exactly when it is mentioned. */
  lemma ConnectedIffMentioned(bodies: seq<MassBody>, i: nat)
    requires i < |bodies| && FirstDeclError(Decls(bodies), |bodies|).None?
    ensures Connected(Decls(bodies), |bodies|, i) <==> Mentioned(bodies, i)
  {
    var n := |bodies|;
    var ds := Decls(bodies);
    if |bodies[i].coupl| > 0 {
      CouplingIsRelated(bodies, i, 0);
      DeclsAt(bodies, n, i, 0);
      assert DeclError(ds[TotalCouplings(bodies[..i])], n).None?;
      assert 0 <= Norm(bodies[i].coupl[0], n) < n;
    } else if l, j :| 0 <= l < n && 0 <= j < |bodies[l].coupl| && Norm(bodies[l].coupl[j], n) == i {
      CouplingIsRelated(bodies, l, j);
    }
    if Connected(ds, n, i) {
      var b :| 0 <= b < n && Related(ds, n, i, b);
      var x :| 0 <= x < |ds| && Touches(ds[x], n, i, b);
      DeclsOrigin(bodies, n, x);
      var d := ds[x];
      var j :| 0 <= j < |bodies[d.row].coupl| && d == BodyDecls(bodies[d.row], d.row)[j];
      if d.row != i {
        assert Norm(bodies[d.row].coupl[j], n) == i;
      }
    }
  }

  // ---------------------------------------------------------------------------------------------
  // The matrices.

  /** The matrices of a successful assembly, with the base removed and the lower half mirrored. */
  lemma AssembledShape(bodies: seq<MassBody>, nBodies: int)
    requires |bodies| > 0
    ensures var r := Built(bodies, nBodies);
            var n := |bodies|;
            var dim := |r.bodies|;
            && dim == n - Shift(bodies) && r.nDs == TotalCouplings(bodies)
            && |r.m| == dim && |r.c| == dim && |r.k| == dim && |r.relations| == n
            && (forall a | 0 <= a < dim :: |r.m[a]| == dim && |r.c[a]| == dim && |r.k[a]| == dim)
            && (forall a | 0 <= a < n :: |r.relations[a]| == n)
            && (forall a, b | 0 <= a < dim && 0 <= b < dim :: r.m[a][b] == if a == b then r.bodies[a].m else 0.0)
            && (forall a, b | 0 <= a < dim && 0 <= b < dim :: r.c[a][b] == r.c[b][a] && r.k[a][b] == r.k[b][a])
            && (forall a, b | 0 <= a < n && 0 <= b < n :: r.relations[a][b] == r.relations[b][a])
  {
    var n := |bodies|;
    var ds := Decls(bodies);
    DeclCount(bodies, n);
    assert bodies[..n] == bodies;
    forall a, b | 0 <= a < n && 0 <= b < n ensures Related(ds, n, a, b) == Related(ds, n, b, a) {
      CoefSymmetric(ds, n, DampingPart, a, b);
      CoefIsLastWriter(ds, n, DampingPart, a, b);
      CoefIsLastWriter(ds, n, DampingPart, b, a);
    }
  }

  lemma FinalDiagonal(ds: seq<Decl>, n: nat, p: Part, s: nat, a: nat)
    ensures FinalEntry(ds, n, p, s, a, a) == RowSum(ds, n, p, a + s, 0, n)
  {
  }

  /**
   * A diagonal entry of the damping or stiffness matrix is the sum of the stored coefficients over
   * every relation of the body, the base included.
   */
  lemma DiagonalIsRowSum(bodies: seq<MassBody>, nBodies: int, a: nat)
    requires |bodies| > 0 && a < |bodies| - Shift(bodies)
    ensures var r := Built(bodies, nBodies);
            var i := a + Shift(bodies);
            r.c[a][a] == RowSum(Decls(bodies), |bodies|, DampingPart, i, 0, |bodies|)
            && r.k[a][a] == RowSum(Decls(bodies), |bodies|, StiffnessPart, i, 0, |bodies|)
  {
    var n, ds, s := |bodies|, Decls(bodies), Shift(bodies);
    FinalDiagonal(ds, n, DampingPart, s, a);
    FinalDiagonal(ds, n, StiffnessPart, s, a);
  }

  lemma FinalOffDiagonal(ds: seq<Decl>, n: nat, p: Part, s: nat, a: nat, b: nat)
    requires a < b
    ensures FinalEntry(ds, n, p, s, a, b) == -RowSum(ds, n, p, a + s, 1, n)
    ensures FinalEntry(ds, n, p, s, b, a) == FinalEntry(ds, n, p, s, a, b)
  {
  }

  /**
   * Every entry right of the diagonal in one row holds the same value, minus the sum over all that
   * body's relations to moving bodies, whether or not the two bodies are coupled.
   */
  lemma OffDiagonalIsRowConstant(bodies: seq<MassBody>, nBodies: int, a: nat, b: nat)
    requires |bodies| > 0 && a < b < |bodies| - Shift(bodies)
    ensures var r := Built(bodies, nBodies);
            var i := a + Shift(bodies);
            r.c[a][b] == -RowSum(Decls(bodies), |bodies|, DampingPart, i, 1, |bodies|)
            && r.k[a][b] == -RowSum(Decls(bodies), |bodies|, StiffnessPart, i, 1, |bodies|)
            && r.c[b][a] == r.c[a][b] && r.k[b][a] == r.k[a][b]
  {
    var n, ds, s := |bodies|, Decls(bodies), Shift(bodies);
    FinalOffDiagonal(ds, n, DampingPart, s, a, b);
    FinalOffDiagonal(ds, n, StiffnessPart, s, a, b);
  }

  // ---------------------------------------------------------------------------------------------
  // The errors.

  /** A body mentioned by no coupling raises ValueError naming it, if it is the first such body. */
  lemma UnconnectedBodyRejected(bodies: seq<MassBody>, nBodies: int, i: nat)
    requires i < |bodies| && FirstDeclError(Decls(bodies), |bodies|).None?
    requires !Mentioned(bodies, i) && forall l | 0 <= l < i :: Mentioned(bodies, l)
    ensures Assemble(bodies, nBodies) == Failure(Unconnected(bodies[i].number))
  {
    var n := |bodies|;
    var ds := Decls(bodies);
    forall l | 0 <= l <= i ensures Connected(ds, n, l) <==> Mentioned(bodies, l) {
      ConnectedIffMentioned(bodies, l);
    }
    var first := FirstUnconnected(ds, n, 0);
    assert first.Some?;
    assert first.value == i;
  }

  /** Conversely, when every body is mentioned and no declaration raises, the assembly succeeds. */
  lemma MentionedBodiesAssemble(bodies: seq<MassBody>, nBodies: int)
    requires |bodies| > 0 && FirstDeclError(Decls(bodies), |bodies|).None?
    requires forall i | 0 <= i < |bodies| :: Mentioned(bodies, i)
    ensures Assemble(bodies, nBodies).Success?
  {
    forall i | 0 <= i < |bodies| ensures Connected(Decls(bodies), |bodies|, i) {
      ConnectedIffMentioned(bodies, i);
    }
  }

  /** The base is a body too: unless some body couples to position 0, the assembly raises. */
  lemma BaseMustBeCoupled(bodies: seq<MassBody>, nBodies: int)
    requires |bodies| > 0 && FirstDeclError(Decls(bodies), |bodies|).None?
    requires !Mentioned(bodies, 0)
    ensures Assemble(bodies, nBodies) == Failure(Unconnected(bodies[0].number))
  {
    UnconnectedBodyRejected(bodies, nBodies, 0);
  }

  // ---------------------------------------------------------------------------------------------
  // Worked examples.

  /** A moving body of the examples, coupled to the single position `to`. */
  function ChainBody(number: int, m: real, to: int, c: real, k: real): MassBody {
    NewBody.(m := m, number := number, k := Vector([k]), zeta := Vector([0.0]), coupl := [to], c := Vector([c]))
  }

  /** Base - body 1 - body 2, springs of 10 and 5 and dampers of 1 and 0.5. */
  function TwoBodies(): seq<MassBody> {
    [NewBody, ChainBody(1, 1.0, 0, 1.0, 10.0), ChainBody(2, 2.0, 1, 0.5, 5.0)]
  }

  function TwoBodyDeclList(): seq<Decl> {
    [Decl(1, 0, Success(1.0), Success(10.0)), Decl(2, 1, Success(0.5), Success(5.0))]
  }

  lemma TwoBodyDecls(bodies: seq<MassBody>)
    requires bodies == TwoBodies()
    ensures Decls(bodies) == TwoBodyDeclList()
  {
    var ds := TwoBodyDeclList();
    assert BodyDecls(bodies[1], 1) == [ds[0]];
    assert BodyDecls(bodies[2], 2) == [ds[1]];
    assert DeclsUpTo(bodies, 1) == [];
    assert DeclsUpTo(bodies, 2) == [ds[0]];
  }

  lemma TwoBodyRowSums(p: Part)
    ensures var ds := TwoBodyDeclList();
            var c01, c12 := if p == DampingPart then 1.0 else 10.0, if p == DampingPart then 0.5 else 5.0;
            && (forall i | 0 <= i < 3 :: Connected(ds, 3, i))
            && RowSum(ds, 3, p, 1, 0, 3) == c01 + c12 && RowSum(ds, 3, p, 1, 1, 3) == c12
            && RowSum(ds, 3, p, 2, 0, 3) == c12
  {
    var ds := TwoBodyDeclList();
    var d0 := ds[0];
    assert Touches(ds[0], 3, 0, 1) && Touches(ds[0], 3, 1, 0);
    assert Touches(ds[1], 3, 1, 2) && Touches(ds[1], 3, 2, 1);
    assert Related(ds, 3, 0, 1) && Related(ds, 3, 1, 0) && Related(ds, 3, 1, 2) && Related(ds, 3, 2, 1);
    assert Connected(ds, 3, 0) && Connected(ds, 3, 1) && Connected(ds, 3, 2);
    assert !Related(ds, 3, 1, 1) && !Related(ds, 3, 2, 2) && !Related(ds, 3, 2, 0);
    assert ds[..1] == [d0];
    assert Coef(ds, 3, p, 1, 0) == Coef([d0], 3, p, 1, 0) == Some(Value(d0, p));
  }

  /** The four final entries of the two-body declarations. */
  lemma TwoBodyEntries(p: Part)
    ensures var ds := TwoBodyDeclList();
            var c01, c12 := if p == DampingPart then 1.0 else 10.0, if p == DampingPart then 0.5 else 5.0;
            && FinalEntry(ds, 3, p, 1, 0, 0) == c01 + c12 && FinalEntry(ds, 3, p, 1, 1, 1) == c12
            && FinalEntry(ds, 3, p, 1, 0, 1) == -c12 && FinalEntry(ds, 3, p, 1, 1, 0) == -c12
  {
    TwoBodyRowSums(p);
  }

  /** A two-by-two matrix given entry by entry. */
  lemma TwoByTwo(r: seq<seq<real>>, x00: real, x01: real, x10: real, x11: real)
    requires |r| == 2 && |r[0]| == 2 && |r[1]| == 2
    requires r[0][0] == x00 && r[0][1] == x01 && r[1][0] == x10 && r[1][1] == x11
    ensures r == [[x00, x01], [x10, x11]]
  {
    assert r[0] == [x00, x01] && r[1] == [x10, x11];
  }

  lemma TwoBodyBuilt(bodies: seq<MassBody>)
    requires bodies == TwoBodies()
    ensures var r := Built(bodies, 0);
            r.nBodies == 2 && r.nDs == 2
            && r.m == [[1.0, 0.0], [0.0, 2.0]]
            && r.c == [[1.5, -0.5], [-0.5, 0.5]]
            && r.k == [[15.0, -5.0], [-5.0, 5.0]]
  {
    TwoBodyDecls(bodies);
    TwoBodyEntries(DampingPart);
    TwoBodyEntries(StiffnessPart);
    TwoByTwo(MassMatrix(bodies), 1.0, 0.0, 0.0, 2.0);
    TwoByTwo(CoefMatrix(bodies, DampingPart), 1.5, -0.5, -0.5, 0.5);
    TwoByTwo(CoefMatrix(bodies, StiffnessPart), 15.0, -5.0, -5.0, 5.0);
  }

  /** The two-body system has the textbook matrices of the two-mass oscillator. */
  lemma TwoBodyExample(bodies: seq<MassBody>)
    requires bodies == TwoBodies()
    ensures var r := Assemble(bodies, 0);
            r.Success? && r.value.nBodies == 2 && r.value.nDs == 2
            && r.value.m == [[1.0, 0.0], [0.0, 2.0]]
            && r.value.c == [[1.5, -0.5], [-0.5, 0.5]]
            && r.value.k == [[15.0, -5.0], [-5.0, 5.0]]
  {
    var ds := TwoBodyDeclList();
    TwoBodyDecls(bodies);
    TwoBodyRowSums(DampingPart);
    assert DeclError(ds[0], 3).None? && DeclError(ds[1], 3).None?;
    assert FirstDeclError(Decls(bodies), |bodies|).None?;
    assert forall i | 0 <= i < |bodies| :: Connected(Decls(bodies), |bodies|, i);
    TwoBodyBuilt(bodies);
  }

  // ---------------------------------------------------------------------------------------------
  // The entries right of the diagonal.
  //
  // As written, every entry right of the diagonal in row `i` holds minus the sum over all of
  // body `i`'s relations to moving bodies, so in a chain of three moving bodies the first and the
  // third, which share no spring, get a stiffness entry.  The evidently intended matrix holds
  // minus the coefficient of the one spring between the two bodies.

  /** Base - body 1 - body 2 - body 3, unit masses, springs of 10, 5 and 5. */
  function ThreeBodies(): seq<MassBody> {
    [NewBody, ChainBody(1, 1.0, 0, 1.0, 10.0), ChainBody(2, 1.0, 1, 0.5, 5.0), ChainBody(3, 1.0, 2, 0.5, 5.0)]
  }

  function ThreeBodyDeclList(): seq<Decl> {
    [Decl(1, 0, Success(1.0), Success(10.0)), Decl(2, 1, Success(0.5), Success(5.0)),
     Decl(3, 2, Success(0.5), Success(5.0))]
  }

  lemma ThreeBodyDecls(bodies: seq<MassBody>)
    requires bodies == ThreeBodies()
    ensures Decls(bodies) == ThreeBodyDeclList()
  {
    var ds := ThreeBodyDeclList();
    assert BodyDecls(bodies[1], 1) == [ds[0]];
    assert BodyDecls(bodies[2], 2) == [ds[1]];
    assert BodyDecls(bodies[3], 3) == [ds[2]];
    assert DeclsUpTo(bodies, 1) == [];
    assert DeclsUpTo(bodies, 2) == [ds[0]];
    assert DeclsUpTo(bodies, 3) == [ds[0], ds[1]];
  }

  lemma ThreeBodyConnected()
    ensures var ds := ThreeBodyDeclList();
            && (forall j | 0 <= j < |ds| :: DeclError(ds[j], 4).None?)
            && (forall i | 0 <= i < 4 :: Connected(ds, 4, i))
  {
    var ds := ThreeBodyDeclList();
    assert Touches(ds[0], 4, 1, 0) && Touches(ds[1], 4, 2, 1);
    assert Touches(ds[2], 4, 3, 2) && Touches(ds[0], 4, 0, 1);
    assert Related(ds, 4, 0, 1) && Related(ds, 4, 1, 0) && Related(ds, 4, 2, 1) && Related(ds, 4, 3, 2);
    assert Connected(ds, 4, 0) && Connected(ds, 4, 1) && Connected(ds, 4, 2) && Connected(ds, 4, 3);
  }

  lemma ThreeBodyRowSum()
    ensures var ds := ThreeBodyDeclList();
            !Related(ds, 4, 1, 3) && RowSum(ds, 4, StiffnessPart, 1, 1, 4) == 5.0
  {
    var ds := ThreeBodyDeclList();
    assert Touches(ds[1], 4, 1, 2);
    assert Related(ds, 4, 1, 2);
    assert !Related(ds, 4, 1, 1) && !Related(ds, 4, 1, 3);
    assert ds[..2] == [ds[0], ds[1]];
    assert Coef(ds, 4, StiffnessPart, 1, 2) == Coef(ds[..2], 4, StiffnessPart, 1, 2) == Some(5.0);
  }

  /** The chain as written: bodies 1 and 3 are not coupled, yet their stiffness entry is -5. */
  lemma ThreeBodyChainAsWritten(bodies: seq<MassBody>)
    requires bodies == ThreeBodies()
    ensures var r := Assemble(bodies, 0);
            r.Success? && !Related(Decls(bodies), 4, 1, 3) && r.value.k[0][2] == -5.0
  {
    ThreeBodyDecls(bodies);
    ThreeBodyConnected();
    ThreeBodyRowSum();
    OffDiagonalIsRowConstant(bodies, 0, 0, 2);
  }

  /** Entry `(a, b)` of the evidently intended matrix, the base removed by the shift `s`. */
  function TextbookEntry(ds: seq<Decl>, n: nat, p: Part, s: nat, a: int, b: int): real {
    if a == b then RowSum(ds, n, p, a + s, 0, n) else -Stored(ds, n, p, a + s, b + s)
  }

  /** The evidently intended damping or stiffness matrix of a body list. */
  function Textbook(bodies: seq<MassBody>, p: Part): (r: seq<seq<real>>)
    requires |bodies| > 0
    ensures |r| == |bodies| - Shift(bodies)
  {
    var n := |bodies|;
    var s := Shift(bodies);
    SquareMatrix(n - s, (a: nat, b: nat) => TextbookEntry(Decls(bodies), n, p, s, a, b))
  }

  /** The intended matrix is symmetric without any mirroring. */
  lemma TextbookSymmetric(bodies: seq<MassBody>, p: Part, a: nat, b: nat)
    requires |bodies| > 0 && a < |bodies| - Shift(bodies) && b < |bodies| - Shift(bodies)
    ensures Textbook(bodies, p)[a][b] == Textbook(bodies, p)[b][a]
  {
    var s := Shift(bodies);
    CoefSymmetric(Decls(bodies), |bodies|, p, a + s, b + s);
  }

  /** In the intended matrix two distinct bodies without a coupling have a zero entry. */
  lemma TextbookUncoupledIsZero(bodies: seq<MassBody>, p: Part, a: nat, b: nat)
    requires |bodies| > 0 && a < |bodies| - Shift(bodies) && b < |bodies| - Shift(bodies) && a != b
    requires !Related(Decls(bodies), |bodies|, a + Shift(bodies), b + Shift(bodies))
    ensures Textbook(bodies, p)[a][b] == 0.0
  {
    CoefIsLastWriter(Decls(bodies), |bodies|, p, a + Shift(bodies), b + Shift(bodies));
  }

  /** For the chain, the intended matrix has no entry between bodies 1 and 3. */
  lemma ThreeBodyChainIntended(bodies: seq<MassBody>)
    requires bodies == ThreeBodies()
    ensures Textbook(bodies, StiffnessPart)[0][2] == 0.0
  {
    ThreeBodyDecls(bodies);
    ThreeBodyRowSum();
    TextbookUncoupledIsZero(bodies, StiffnessPart, 0, 2);
  }

  /**
   * With two moving bodies and no body coupled to itself, the matrices as written are the
   * intended ones: the defect needs a third moving body.
   */
  lemma TwoMovingBodiesAgree(bodies: seq<MassBody>, p: Part, a: nat, b: nat)
    requires |bodies| == 3 && Shift(bodies) == 1 && a < 2 && b < 2
    requires !Related(Decls(bodies), 3, 1, 1) && !Related(Decls(bodies), 3, 2, 2)
    ensures FinalEntry(Decls(bodies), 3, p, 1, a, b) == Textbook(bodies, p)[a][b]
  {
    var ds := Decls(bodies);
    CoefIsLastWriter(ds, 3, p, 1, 2);
    CoefSymmetric(ds, 3, p, 1, 2);
  }
}
