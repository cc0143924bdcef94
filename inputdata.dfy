/**
 * `InputData` of initialisation.py:120-341: the object the simulation reads its data from.  Its
 * methods change its fields in place; each is proved to leave the state that the functions of
 * modules `Parser` and `Assembly` describe.  An attribute Python has not yet set, whose reading
 * raises AttributeError, is `None` or `null` here.
 */
module Input {
  import opened Wrappers
  import opened Errors
  import opened Bodies
  import opened Assembly
  import Parser
  import Force

  /** A square array holds the matrix `mat`. */
  ghost predicate Holds<T>(arr: array2<T>, mat: seq<seq<T>>)
    reads arr
  {
    arr.Length0 == arr.Length1 == |mat|
    && (forall a | 0 <= a < |mat| :: |mat[a]| == arr.Length1)
    && forall a, b | 0 <= a < arr.Length0 && 0 <= b < arr.Length1 :: arr[a, b] == mat[a][b]
  }

  /** The contents of a two-dimensional array, row by row. */
  ghost function Contents<T>(arr: array2<T>): (r: seq<seq<T>>)
    reads arr
    ensures |r| == arr.Length0 && forall a | 0 <= a < |r| :: |r[a]| == arr.Length1
  {
    seq(arr.Length0, (a: int) requires 0 <= a < arr.Length0 reads arr =>
      seq(arr.Length1, (b: int) requires 0 <= b < arr.Length1 reads arr => arr[a, b]))
  }

  /** A square array that holds `mat` has `mat` as its contents. */
  lemma ContentsOf<T>(arr: array2<T>, mat: seq<seq<T>>)
    requires Holds(arr, mat)
    ensures Contents(arr) == mat
  {
    var r := Contents(arr);
    forall a | 0 <= a < |mat| ensures r[a] == mat[a] {
      assert |r[a]| == |mat[a]|;
      forall b | 0 <= b < |mat[a]| ensures r[a][b] == mat[a][b] {
      }
    }
  }

  /** The three `n`-by-`n` relation arrays hold what the declarations `ds` record. */
  ghost predicate Cells(rel: array2<bool>, relC: array2<real>, relK: array2<real>, ds: seq<Decl>, n: nat)
    reads rel, relC, relK
  {
    rel.Length0 == rel.Length1 == relC.Length0 == relC.Length1 == relK.Length0 == relK.Length1 == n
    && forall a, b | 0 <= a < n && 0 <= b < n ::
         rel[a, b] == Related(ds, n, a, b)
         && relC[a, b] == Stored(ds, n, DampingPart, a, b) && relK[a, b] == Stored(ds, n, StiffnessPart, a, b)
  }

  /** `any(self._relations[i, :])`. */
  method AnyInRow(rel: array2<bool>, i: nat) returns (found: bool)
    requires i < rel.Length0
    ensures found <==> exists j | 0 <= j < rel.Length1 :: rel[i, j]
  {
    found := false;
    var j := 0;
    while j < rel.Length1
      invariant 0 <= j <= rel.Length1
      invariant found <==> exists l | 0 <= l < j :: rel[i, l]
    {
      found := found || rel[i, j];
      j := j + 1;
    }
  }

  /**
   * The innermost loops of lines 289-301 for entry `(i, col)`: on the diagonal the sum of row `i`
   * of `_relations_C` and `_relations_K` over every relation, elsewhere the sum of their negations
   * over the relations to moving bodies.
   */
  method RowTotals(rel: array2<bool>, relC: array2<real>, relK: array2<real>, i: nat, diagonal: bool,
                   ghost ds: seq<Decl>)
    returns (sc: real, sk: real)
    requires Cells(rel, relC, relK, ds, rel.Length0) && i < rel.Length0
    ensures diagonal ==> sc == RowSum(ds, rel.Length0, DampingPart, i, 0, rel.Length0)
                         && sk == RowSum(ds, rel.Length0, StiffnessPart, i, 0, rel.Length0)
    ensures !diagonal ==> sc == -RowSum(ds, rel.Length0, DampingPart, i, 1, rel.Length0)
                          && sk == -RowSum(ds, rel.Length0, StiffnessPart, i, 1, rel.Length0)
  {
    var n := rel.Length0;
    sc, sk := 0.0, 0.0;
    var ic := 0;
    if diagonal {
      while ic < n
        invariant 0 <= ic <= n
        invariant sc == RowSum(ds, n, DampingPart, i, 0, ic) && sk == RowSum(ds, n, StiffnessPart, i, 0, ic)
      {
        if rel[i, ic] {
          sc := sc + relC[i, ic];
          sk := sk + relK[i, ic];
        }
        ic := ic + 1;
      }
    } else {
      while ic < n
        invariant 0 <= ic <= n
        invariant sc == -RowSum(ds, n, DampingPart, i, 1, ic) && sk == -RowSum(ds, n, StiffnessPart, i, 1, ic)
      {
        if ic != 0 && rel[i, ic] {
          sc := sc + -relC[i, ic];
          sk := sk + -relK[i, ic];
        }
        ic := ic + 1;
      }
    }
  }

  /** `a[1:, 1:]`: a new array without the first row and column. */
  method DropFirst(a: array2<real>) returns (r: array2<real>)
    requires a.Length0 == a.Length1 > 0
    ensures fresh(r) && r.Length0 == r.Length1 == a.Length0 - 1
    ensures forall i, j | 0 <= i < r.Length0 && 0 <= j < r.Length1 :: r[i, j] == a[i + 1, j + 1]
  {
    r := new real[a.Length0 - 1, a.Length1 - 1]((i, j) reads a =>
                                                if 0 <= i < a.Length0 - 1 && 0 <= j < a.Length1 - 1
                                                then a[i + 1, j + 1] else 0.0);
  }

  /** Lines 312-317: copy the upper half of `c` and `k` onto the lower half. */
  method Mirror(c: array2<real>, k: array2<real>)
    requires c.Length0 == c.Length1 == k.Length0 == k.Length1 && c != k
    modifies c, k
    ensures forall a, b | 0 <= a < c.Length0 && 0 <= b < c.Length1 ::
              c[a, b] == (if a <= b then old(c[a, b]) else old(c[b, a]))
              && k[a, b] == (if a <= b then old(k[a, b]) else old(k[b, a]))
  {
    var n := c.Length0;
    var i := 0;
    while i < n
      invariant 0 <= i <= n
      invariant forall a, b | 0 <= a < n && 0 <= b < n ::
                  c[a, b] == (if b < i && b < a then old(c[b, a]) else old(c[a, b]))
                  && k[a, b] == (if b < i && b < a then old(k[b, a]) else old(k[a, b]))
    {
      var col := i;
      while col < n
        invariant i <= col <= n
        invariant forall a, b | 0 <= a < n && 0 <= b < n ::
                    c[a, b] == (if (b < i && b < a) || (b == i && i < a < col) then old(c[b, a]) else old(c[a, b]))
                    && k[a, b] == (if (b < i && b < a) || (b == i && i < a < col) then old(k[b, a]) else old(k[a, b]))
      {
        if i != col {
          c[col, i] := c[i, col];
          k[col, i] := k[i, col];
        }
        col := col + 1;
      }
      i := i + 1;
    }
  }

  /** `a[i, col] = v` followed by `a[col, i] = v`. */
  method SetPair<T>(a: array2<T>, i: nat, col: nat, v: T)
    requires i < a.Length0 && i < a.Length1 && col < a.Length0 && col < a.Length1
    modifies a
    ensures forall x, y | 0 <= x < a.Length0 && 0 <= y < a.Length1 ::
              a[x, y] == if (x == i && y == col) || (x == col && y == i) then v else old(a[x, y])
  {
    a[i, col] := v;
    a[col, i] := v;
  }

  /**
   * Lines 270-277 for entry `j` of body `i`: count it, check the index, then write the relation and
   * the two coefficients into cells `(i, k)` and `(k, i)`.
   */
  method RecordDecl(bodies: seq<MassBody>, i: nat, j: nat, rel: array2<bool>, relC: array2<real>,
                    relK: array2<real>, ghost ds: seq<Decl>)
    returns (err: Option<Error>)
    requires i < |bodies| && j < |bodies[i].coupl| && relC != relK
    requires ds == DeclsUpTo(bodies, i) + BodyDecls(bodies[i], i)[..j]
    requires FirstDeclError(ds, |bodies|).None? && Cells(rel, relC, relK, ds, |bodies|)
    modifies rel, relC, relK
    ensures err.Some? ==> forall nb :: Assemble(bodies, nb) == Failure(err.value)
    ensures err.None? ==> var ds' := DeclsUpTo(bodies, i) + BodyDecls(bodies[i], i)[..j + 1];
                          FirstDeclError(ds', |bodies|).None? && Cells(rel, relC, relK, ds', |bodies|)
  {
    var n := |bodies|;
    var body := bodies[i];
    ghost var d := BodyDecls(body, i)[j];
    var t := body.coupl[j];
    if !(-(n as int) <= t < n) {
      forall nb ensures Assemble(bodies, nb) == Failure(IndexOutOfRange) {
        DeclErrorRaises(bodies, nb, i, j);
      }
      return Some(IndexOutOfRange);
    }
    var col := if t < 0 then t + n else t;
    SetPair(rel, i, col, true);
    var cv := At(body.c, j, IndexOutOfRange);
    if cv.Failure? {
      forall nb ensures Assemble(bodies, nb) == Failure(cv.error) {
        DeclErrorRaises(bodies, nb, i, j);
      }
      return Some(cv.error);
    }
    SetPair(relC, i, col, cv.value);
    var kv := At(body.k, j, NotSubscriptable);
    if kv.Failure? {
      forall nb ensures Assemble(bodies, nb) == Failure(kv.error) {
        DeclErrorRaises(bodies, nb, i, j);
      }
      return Some(kv.error);
    }
    SetPair(relK, i, col, kv.value);
    assert d == Decl(i, t, cv, kv);
    assert Value(d, DampingPart) == cv.value && Value(d, StiffnessPart) == kv.value;
    forall a, b | 0 <= a < n && 0 <= b < n
      ensures rel[a, b] == Related(ds + [d], n, a, b)
              && relC[a, b] == Stored(ds + [d], n, DampingPart, a, b)
              && relK[a, b] == Stored(ds + [d], n, StiffnessPart, a, b)
    {
      RecordOne(ds, d, n, DampingPart, a, b);
      RecordOne(ds, d, n, StiffnessPart, a, b);
    }
    assert (ds + [d])[..|ds|] == ds;
    assert DeclsUpTo(bodies, i) + BodyDecls(body, i)[..j + 1] == ds + [d];
    return None;
  }

  /** Lines 270-277: the coupling entries of body `i`, in order; `added` counts them. */
  method RecordBody(bodies: seq<MassBody>, i: nat, rel: array2<bool>, relC: array2<real>, relK: array2<real>)
    returns (added: nat, err: Option<Error>)
    requires i < |bodies| && relC != relK
    requires FirstDeclError(DeclsUpTo(bodies, i), |bodies|).None? && Cells(rel, relC, relK, DeclsUpTo(bodies, i), |bodies|)
    modifies rel, relC, relK
    ensures err.Some? ==> forall nb :: Assemble(bodies, nb) == Failure(err.value)
    ensures err.None? ==> added == |bodies[i].coupl|
                          && FirstDeclError(DeclsUpTo(bodies, i + 1), |bodies|).None?
                          && Cells(rel, relC, relK, DeclsUpTo(bodies, i + 1), |bodies|)
  {
    var n := |bodies|;
    var body := bodies[i];
    ghost var own := BodyDecls(body, i);
    added, err := 0, None;
    assert DeclsUpTo(bodies, i) + own[..0] == DeclsUpTo(bodies, i);
    var j := 0;
    while j < |body.coupl|
      invariant 0 <= j <= |body.coupl| && added == j && err.None?
      invariant FirstDeclError(DeclsUpTo(bodies, i) + own[..j], n).None?
      invariant Cells(rel, relC, relK, DeclsUpTo(bodies, i) + own[..j], n)
    {
      added := added + 1;
      err := RecordDecl(bodies, i, j, rel, relC, relK, DeclsUpTo(bodies, i) + own[..j]);
      if err.Some? {
        return;
      }
      j := j + 1;
    }
    assert own[..j] == own;
  }

  /**
   * Lines 265-277: every coupling entry of every body writes its relation and its two
   * coefficients into cells `(i, k)` and `(k, i)`.
   */
  method RecordRelations(bodies: seq<MassBody>, rel: array2<bool>, relC: array2<real>, relK: array2<real>)
    returns (count: nat, err: Option<Error>)
    requires rel.Length0 == rel.Length1 == relC.Length0 == relC.Length1 == relK.Length0 == relK.Length1 == |bodies|
    requires relC != relK
    requires forall a, b | 0 <= a < |bodies| && 0 <= b < |bodies| :: !rel[a, b] && relC[a, b] == 0.0 && relK[a, b] == 0.0
    modifies rel, relC, relK
    ensures err.Some? ==> forall nb :: Assemble(bodies, nb) == Failure(err.value)
    ensures err.None? ==> FirstDeclError(Decls(bodies), |bodies|).None? && count == TotalCouplings(bodies)
                          && Cells(rel, relC, relK, Decls(bodies), |bodies|)
  {
    var n := |bodies|;
    count, err := 0, None;
    var i := 0;
    while i < n
      invariant 0 <= i <= n
      invariant count == |DeclsUpTo(bodies, i)| && err.None?
      invariant FirstDeclError(DeclsUpTo(bodies, i), n).None?
      invariant Cells(rel, relC, relK, DeclsUpTo(bodies, i), n)
    {
      var added;
      added, err := RecordBody(bodies, i, rel, relC, relK);
      if err.Some? {
        return;
      }
      count := count + added;
      i := i + 1;
    }
    DeclCount(bodies, n);
    assert bodies[..n] == bodies;
  }

  /**
   * Lines 280-301: the mass on the diagonal, the coupling check, then every entry of the upper
   * half of the damping and stiffness matrices.
   */
  method FillMatrices(bodies: seq<MassBody>, rel: array2<bool>, relC: array2<real>, relK: array2<real>,
                      m: array2<real>, c: array2<real>, k: array2<real>, ghost ds: seq<Decl>)
    returns (err: Option<Error>)
    requires Cells(rel, relC, relK, ds, |bodies|)
    requires m.Length0 == m.Length1 == c.Length0 == c.Length1 == k.Length0 == k.Length1 == |bodies|
    requires m != c && m != k && c != k && m != relC && m != relK && c != relC && c != relK && k != relC && k != relK
    requires forall a, b | 0 <= a < |bodies| && 0 <= b < |bodies| :: m[a, b] == 0.0 && c[a, b] == 0.0 && k[a, b] == 0.0
    modifies m, c, k
    ensures err.Some? <==> FirstUnconnected(ds, |bodies|, 0).Some?
    ensures err.Some? ==> err.value == Unconnected(bodies[FirstUnconnected(ds, |bodies|, 0).value].number)
    ensures err.None? ==>
              forall a, b | 0 <= a < |bodies| && 0 <= b < |bodies| ::
                m[a, b] == (if a == b then bodies[a].m else 0.0)
                && c[a, b] == FullEntry(ds, |bodies|, DampingPart, a, b)
                && k[a, b] == FullEntry(ds, |bodies|, StiffnessPart, a, b)
  {
    var n := |bodies|;
    var i := 0;
    while i < n
      invariant 0 <= i <= n
      invariant forall l | 0 <= l < i :: Connected(ds, n, l)
      invariant forall a, b | 0 <= a < n && 0 <= b < n ::
                  m[a, b] == (if a == b && a < i then bodies[a].m else 0.0)
                  && c[a, b] == (if a < i then FullEntry(ds, n, DampingPart, a, b) else 0.0)
                  && k[a, b] == (if a < i then FullEntry(ds, n, StiffnessPart, a, b) else 0.0)
    {
      m[i, i] := bodies[i].m;
      var coupled := AnyInRow(rel, i);
      if !coupled {
        assert !Connected(ds, n, i);
        return Some(Unconnected(bodies[i].number));
      }
      var col := i;
      while col < n
        invariant i <= col <= n
        invariant forall a, b | 0 <= a < n && 0 <= b < n ::
                    m[a, b] == (if a == b && a <= i then bodies[a].m else 0.0)
                    && c[a, b] == (if a < i || (a == i && i <= b < col) then FullEntry(ds, n, DampingPart, a, b) else 0.0)
                    && k[a, b] == (if a < i || (a == i && i <= b < col) then FullEntry(ds, n, StiffnessPart, a, b) else 0.0)
      {
        var sc, sk := RowTotals(rel, relC, relK, i, i == col, ds);
        c[i, col] := c[i, col] + sc;
        k[i, col] := k[i, col] + sk;
        col := col + 1;
      }
      i := i + 1;
    }
    return None;
  }

  /** The mass, damping and stiffness arrays hold the full matrices of lines 280-301. */
  ghost predicate Filled(bodies: seq<MassBody>, m: array2<real>, c: array2<real>, k: array2<real>)
    reads m, c, k
  {
    var n := |bodies|;
    m.Length0 == m.Length1 == c.Length0 == c.Length1 == k.Length0 == k.Length1 == n
    && forall a, b | 0 <= a < n && 0 <= b < n ::
         m[a, b] == (if a == b then bodies[a].m else 0.0)
         && c[a, b] == FullEntry(Decls(bodies), n, DampingPart, a, b)
         && k[a, b] == FullEntry(Decls(bodies), n, StiffnessPart, a, b)
  }

  /** The arrays hold the full matrices without the base's row and column. */
  ghost predicate Dropped(bodies: seq<MassBody>, m: array2<real>, c: array2<real>, k: array2<real>)
    requires |bodies| > 0
    reads m, c, k
  {
    var n, s := |bodies|, Shift(bodies);
    m.Length0 == m.Length1 == c.Length0 == c.Length1 == k.Length0 == k.Length1 == n - s
    && forall a, b | 0 <= a < n - s && 0 <= b < n - s ::
         m[a, b] == (if a == b then bodies[a + s].m else 0.0)
         && c[a, b] == FullEntry(Decls(bodies), n, DampingPart, a + s, b + s)
         && k[a, b] == FullEntry(Decls(bodies), n, StiffnessPart, a + s, b + s)
  }

  /** The arrays hold the matrices `couple_bodies` ends with. */
  ghost predicate Final(bodies: seq<MassBody>, m: array2<real>, c: array2<real>, k: array2<real>)
    requires |bodies| > 0
    reads m, c, k
  {
    var n, s := |bodies|, Shift(bodies);
    m.Length0 == m.Length1 == c.Length0 == c.Length1 == k.Length0 == k.Length1 == n - s
    && forall a, b | 0 <= a < n - s && 0 <= b < n - s ::
         m[a, b] == (if a == b then bodies[a + s].m else 0.0)
         && c[a, b] == FinalEntry(Decls(bodies), n, DampingPart, s, a, b)
         && k[a, b] == FinalEntry(Decls(bodies), n, StiffnessPart, s, a, b)
  }

  /** The arrays at the end of `couple_bodies` hold the assembly of the body list. */
  lemma BuiltHolds(bodies: seq<MassBody>, nBodies: int, rel: array2<bool>, m: array2<real>, c: array2<real>,
                   k: array2<real>)
    requires |bodies| > 0
    requires rel.Length0 == rel.Length1 == |bodies|
    requires forall a, b | 0 <= a < |bodies| && 0 <= b < |bodies| :: rel[a, b] == Related(Decls(bodies), |bodies|, a, b)
    requires Final(bodies, m, c, k)
    ensures var r := Built(bodies, nBodies);
            Holds(rel, r.relations) && Holds(m, r.m) && Holds(c, r.c) && Holds(k, r.k)
  {
  }

  /**
   * Lines 306-310: when the first body is the base, the matrices without its row and column
   * (`[1:, 1:]`); otherwise the matrices themselves.
   */
  method DropBase(bodies: seq<MassBody>, m: array2<real>, c: array2<real>, k: array2<real>)
    returns (m': array2<real>, c': array2<real>, k': array2<real>)
    requires |bodies| > 0 && Filled(bodies, m, c, k) && m != c && m != k && c != k
    ensures (fresh(c') || c' == c) && (fresh(k') || k' == k) && (fresh(m') || m' == m)
    ensures c' != k' && m' != c' && m' != k' && Dropped(bodies, m', c', k')
  {
    m', c', k' := m, c, k;
    if bodies[0].number == 0 {
      m' := DropFirst(m);
      c' := DropFirst(c);
      k' := DropFirst(k);
    }
  }

  /** Lines 312-317: mirroring the upper half turns the reduced matrices into the final ones. */
  method MirrorEntries(bodies: seq<MassBody>, m: array2<real>, c: array2<real>, k: array2<real>)
    requires |bodies| > 0 && Dropped(bodies, m, c, k) && c != k && m != c && m != k
    modifies c, k
    ensures Final(bodies, m, c, k)
  {
    Mirror(c, k);
  }

  /**
   * Lines 306-317 once the matrices are filled: without the base, drop its row and column
   * (`[1:, 1:]`), then mirror the upper half of the damping and stiffness matrices.
   */
  method Reduce(bodies: seq<MassBody>, m: array2<real>, c: array2<real>, k: array2<real>)
    returns (m': array2<real>, c': array2<real>, k': array2<real>)
    requires |bodies| > 0 && Filled(bodies, m, c, k) && m != c && m != k && c != k
    modifies c, k
    ensures (fresh(c') || c' == c) && (fresh(k') || k' == k) && (fresh(m') || m' == m)
    ensures Final(bodies, m', c', k')
  {
    m', c', k' := DropBase(bodies, m, c, k);
    MirrorEntries(bodies, m', c', k');
  }

  /**
   * Lines 253-304: the relation arrays, the declaration count and the full mass, damping and
   * stiffness matrices of the body list, or the exception raised on the way.
   */
  method Tabulate(bodies: seq<MassBody>)
    returns (err: Option<Error>, count: nat, rel: array2<bool>, m: array2<real>, c: array2<real>,
             k: array2<real>)
    ensures err.Some? ==> forall nb :: Assemble(bodies, nb) == Failure(err.value)
    ensures err.None? ==>
              var n, ds := |bodies|, Decls(bodies);
              && n > 0 && FirstDeclError(ds, n).None? && FirstUnconnected(ds, n, 0).None? && count == |ds|
              && fresh(rel) && fresh(m) && fresh(c) && fresh(k) && m != c && m != k && c != k
              && rel.Length0 == rel.Length1 == n
              && (forall a, b | 0 <= a < n && 0 <= b < n :: rel[a, b] == Related(ds, n, a, b))
              && Filled(bodies, m, c, k)
  {
    var n := |bodies|;
    m := new real[n, n]((a, b) => 0.0);
    c := new real[n, n]((a, b) => 0.0);
    k := new real[n, n]((a, b) => 0.0);
    rel := new bool[n, n]((a, b) => false);
    var relC := new real[n, n]((a, b) => 0.0);
    var relK := new real[n, n]((a, b) => 0.0);
    count, err := RecordRelations(bodies, rel, relC, relK);
    if err.Some? {
      return;
    }
    ghost var ds := Decls(bodies);
    err := FillMatrices(bodies, rel, relC, relK, m, c, k, ds);
    if err.Some? {
      forall nb: int ensures Assemble(bodies, nb) == Failure(err.value) {
        AssembleUnconnected(bodies, nb);
      }
      return;
    }
    if n == 0 {
      err := Some(IndexOutOfRange);
      forall nb: int ensures Assemble(bodies, nb) == Failure(err.value) {
        AssembleEmpty(nb);
      }
      return;
    }
    DeclCount(bodies, n);
    assert bodies[..n] == bodies;
  }

  /**
   * The work of `couple_bodies` on the body list: the declaration count, the body list and body
   * count without the base, the relation array and the three matrices of the assembly, or the
   * exception it raises.
   */
  method Couple(bodies: seq<MassBody>, nBodies: int)
    returns (err: Option<Error>, count: nat, rest: seq<MassBody>, restN: nat, rel: array2<bool>,
             m: array2<real>, c: array2<real>, k: array2<real>)
    requires nBodies >= 0
    ensures Assemble(bodies, nBodies).Failure? ==> err == Some(Assemble(bodies, nBodies).error)
    ensures Assemble(bodies, nBodies).Success? ==>
              var a := Assemble(bodies, nBodies).value;
              err.None? && count == a.nDs && rest == a.bodies && restN == a.nBodies
              && fresh(rel) && fresh(m) && fresh(c) && fresh(k)
              && Contents(rel) == a.relations && Contents(m) == a.m && Contents(c) == a.c
              && Contents(k) == a.k
  {
    err, count, rel, m, c, k := Tabulate(bodies);
    rest, restN := bodies, nBodies;
    if err.Some? {
      return;
    }
    AssembleBuilt(bodies, nBodies);
    m, c, k := Reduce(bodies, m, c, k);
    BuiltHolds(bodies, nBodies, rel, m, c, k);
    ghost var a := Built(bodies, nBodies);
    ContentsOf(rel, a.relations);
    ContentsOf(m, a.m);
    ContentsOf(c, a.c);
    ContentsOf(k, a.k);
    if bodies[0].number == 0 {
      rest, restN := bodies[1..], |bodies| - 1;
    }
  }

  class InputData {
    var bodies: seq<MassBody>
    var nBodies: nat
    var tMax: Option<real>
    var tStep: Option<real>
    var fullAnimation: Option<bool>
    var time: Option<seq<real>>
    var nTsteps: Option<nat>
    var nDs: Option<nat>
    var relations: array2?<bool>
    var m: array2?<real>
    var c: array2?<real>
    var k: array2?<real>

    /** Lines 129-133: no body but the base, and none of the later attributes set. */
    constructor ()
      ensures bodies == [NewBody] && nBodies == 0
      ensures tMax.None? && tStep.None? && fullAnimation.None? && time.None? && nTsteps.None? && nDs.None?
      ensures relations == null && m == null && c == null && k == null
    {
      bodies, nBodies := [NewBody], 0;
      tMax, tStep, fullAnimation, time, nTsteps, nDs := None, None, None, None, None, None;
      relations, m, c, k := null, null, null, null;
    }

    /** The attributes the input scanner sets hold what the scan state `st` says. */
    ghost predicate ScannedAs(st: Parser.ScanState)
      reads this
    {
      bodies == st.bodies && tMax == st.tMax && tStep == st.tStep && fullAnimation == st.fullAnimation
      && time == st.time && nTsteps == st.nTsteps
    }

    /**
     * `InputData(filename)`, lines 124-248, over the lines of the file: the object the scan of
     * every line builds, or the exception of the first line that raises.
     */
    static method Load(lines: seq<string>, env: Parser.Env) returns (r: Result<InputData, Error>)
      ensures Parser.Scan(lines, env).Failure? ==> r == Failure(Parser.Scan(lines, env).error)
      ensures Parser.Scan(lines, env).Success? ==>
                r.Success? && fresh(r.value) && r.value.ScannedAs(Parser.Scan(lines, env).value)
                && r.value.nBodies == 0 && r.value.nDs.None? && r.value.m == null && r.value.c == null
                && r.value.k == null && r.value.relations == null
    {
      var scanned := Parser.ScanLines(lines, env);
      if scanned.Failure? {
        return Failure(scanned.error);
      }
      var st := scanned.value;
      var data := new InputData();
      data.Record(st);
      return Success(data);
    }

    /** The attributes the input scanner sets, set from the scan state `st`. */
    method Record(st: Parser.ScanState)
      modifies this
      ensures ScannedAs(st)
      ensures nBodies == old(nBodies) && nDs == old(nDs)
      ensures relations == old(relations) && m == old(m) && c == old(c) && k == old(k)
    {
      bodies, tMax, tStep := st.bodies, st.tMax, st.tStep;
      fullAnimation, time, nTsteps := st.fullAnimation, st.time, st.nTsteps;
    }

    /** The attributes `couple_bodies` sets hold the assembly `a`. */
    ghost predicate AssembledAs(a: Assembled)
      reads this, relations, m, c, k
    {
      bodies == a.bodies && nBodies == a.nBodies && nDs == Some(a.nDs)
      && relations != null && m != null && c != null && k != null
      && Contents(relations) == a.relations && Contents(m) == a.m && Contents(c) == a.c
      && Contents(k) == a.k
    }

    /** The attributes `couple_bodies` sets, set to the given values. */
    method Install(bs: seq<MassBody>, nb: nat, count: nat, rel: array2<bool>, mm: array2<real>,
                   cc: array2<real>, kk: array2<real>)
      modifies this
      ensures bodies == bs && nBodies == nb && nDs == Some(count)
      ensures relations == rel && m == mm && c == cc && k == kk
      ensures tMax == old(tMax) && tStep == old(tStep) && fullAnimation == old(fullAnimation)
      ensures time == old(time) && nTsteps == old(nTsteps)
    {
      bodies, nBodies, nDs := bs, nb, Some(count);
      relations, m, c, k := rel, mm, cc, kk;
    }

    /**
     * `couple_bodies`, lines 250-317: the coupling relations and the mass, damping and stiffness
     * matrices of the body list, with the base removed; or the exception it raises.  A run that
     * raises leaves the body list as it was.  The simulation settings are left alone either way.
     */
    method CoupleBodies() returns (err: Option<Error>)
      modifies this
      ensures Assemble(old(bodies), old(nBodies)).Failure? ==>
                err == Some(Assemble(old(bodies), old(nBodies)).error)
                && bodies == old(bodies) && nBodies == old(nBodies)
      ensures Assemble(old(bodies), old(nBodies)).Success? ==>
                err.None? && AssembledAs(Assemble(old(bodies), old(nBodies)).value)
                && fresh(relations) && fresh(m) && fresh(c) && fresh(k)
      ensures tMax == old(tMax) && tStep == old(tStep) && fullAnimation == old(fullAnimation)
      ensures time == old(time) && nTsteps == old(nTsteps)
    {
      var count, rest, restN, rel, mm, cc, kk;
      err, count, rest, restN, rel, mm, cc, kk := Couple(bodies, nBodies);
      if err.Some? {
        rest, restN := bodies, nBodies;
      }
      Install(rest, restN, count, rel, mm, cc, kk);
    }

    /** `get_init_cond`, lines 319-328: the initial velocities and displacements, padded with zeros. */
    method GetInitCond() returns (r: Result<(seq<real>, seq<real>), Error>)
      ensures r.Success? <==> |bodies| <= nBodies
      ensures r.Success? ==>
                var (v0, x0) := r.value;
                |v0| == nBodies && |x0| == nBodies
                && (forall j | 0 <= j < |bodies| :: v0[j] == bodies[j].v0 && x0[j] == bodies[j].x0)
                && (forall j | |bodies| <= j < nBodies :: v0[j] == 0.0 && x0[j] == 0.0)
    {
      var v0 := new real[nBodies](j => 0.0);
      var x0 := new real[nBodies](j => 0.0);
      var j := 0;
      while j < |bodies|
        invariant 0 <= j <= |bodies|
        invariant j <= nBodies
        invariant forall l | 0 <= l < nBodies :: v0[l] == (if l < j then bodies[l].v0 else 0.0)
        invariant forall l | 0 <= l < nBodies :: x0[l] == (if l < j then bodies[l].x0 else 0.0)
      {
        if j >= nBodies {
          return Failure(IndexOutOfRange);
        }
        v0[j] := bodies[j].v0;
        x0[j] := bodies[j].x0;
        j := j + 1;
      }
      return Success((v0[..], x0[..]));
    }

    /** `get_force_array`, lines 330-337: the force of every body, in list order. */
    method GetForceArray() returns (r: seq<Option<Force.ForceFunction>>)
      ensures |r| == |bodies| && forall j | 0 <= j < |bodies| :: r[j] == bodies[j].force
    {
      r := [];
      var j := 0;
      while j < |bodies|
        invariant 0 <= j <= |bodies| && |r| == j
        invariant forall l | 0 <= l < j :: r[l] == bodies[l].force
      {
        r := r + [bodies[j].force];
        j := j + 1;
      }
    }
  }
}
