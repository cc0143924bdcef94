/**
 * `MassBody` of initialisation.py:11-28: one point mass with its couplings.  Index 0 of the
 * body list is the fixed base; the other bodies are appended by the input scanner.
 */
module Bodies {
  import opened Wrappers
  import opened Errors
  import Force

  /**
   * A per-coupling coefficient list.  `Scalar` is the plain Python float a body starts with
   * (`self.k = 0.0`), `Vector` the numpy array a STIFF or ZTA line builds.
   */
  datatype Coeffs = Scalar(v: real) | Vector(vs: seq<real>)

  /** `np.size`: a scalar counts as one element. */
  function Size(c: Coeffs): nat {
    match c
    case Scalar(_) => 1
    case Vector(vs) => |vs|
  }

  /** `c[j]`: indexing a scalar raises `scalarError`, a vector must hold index `j`. */
  function At(c: Coeffs, j: nat, scalarError: Error): (r: Result<real, Error>)
    ensures r.Success? <==> c.Vector? && j < |c.vs|
    ensures r.Success? ==> r.value == c.vs[j]
    ensures c.Scalar? ==> r == Failure(scalarError)
  {
    match c
    case Scalar(_) => Failure(scalarError)
    case Vector(vs) => if j < |vs| then Success(vs[j]) else Failure(IndexOutOfRange)
  }

  /** Element `j` under numpy broadcasting: a scalar stands for every element. */
  function Broadcast(c: Coeffs, j: nat): real
    requires c.Vector? ==> j < |c.vs|
  {
    match c
    case Scalar(v) => v
    case Vector(vs) => vs[j]
  }

  datatype MassBody = MassBody(
    m: real,                            // [kg] mass, MASS
    number: int,                        // body number, from the *BODY line
    k: Coeffs,                          // [N/m] stiffness per coupling, STIFF
    zeta: Coeffs,                       // [-] damping ratio per coupling, ZTA
    coupl: seq<int>,                    // coupled body numbers, CPL
    x0: real,                           // [m] initial displacement, X0
    v0: real,                           // [m/s] initial velocity, V0
    force: Option<Force.ForceFunction>, // the force; None is the initial placeholder `[]`
    c: Coeffs,                          // [Ns/m] damping coefficient per coupling
    xloc: real                          // [m] position of the untensioned spring, XLOC
  )

  /** `MassBody()`: the field values of initialisation.py:19-28. */
  const NewBody := MassBody(0.0, 0, Scalar(0.0), Scalar(0.0), [], 0.0, 0.0, None, Scalar(0.0), 0.0)

  /** One damping coefficient `zeta * 2.0 * sqrt(k * m)`; `sqrt` is not interpreted. */
  function DampingCoefficient(zeta: real, k: real, m: real, sqrt: real -> real): real {
    zeta * 2.0 * sqrt(k * m)
  }

  /**
   * `zeta * 2.0 * np.sqrt(k * m)` over two coefficient lists of one size: a scalar when both
   * are scalars, otherwise a vector whose element `j` combines the broadcast elements `j`.
   */
  function Damping(zeta: Coeffs, k: Coeffs, m: real, sqrt: real -> real): (r: Coeffs)
    requires Size(zeta) == Size(k)
    ensures Size(r) == Size(k)
    ensures r.Scalar? <==> zeta.Scalar? && k.Scalar?
    ensures forall j | 0 <= j < Size(r) ::
              Broadcast(r, j) == DampingCoefficient(Broadcast(zeta, j), Broadcast(k, j), m, sqrt)
  {
    if zeta.Scalar? && k.Scalar? then Scalar(DampingCoefficient(zeta.v, k.v, m, sqrt))
    else Vector(seq(Size(k), j requires 0 <= j < Size(k) =>
                      DampingCoefficient(Broadcast(zeta, j), Broadcast(k, j), m, sqrt)))
  }
}
