/** The continuous-time signal sources: the sinusoid and complex-exponential
    constructors (their frequency bookkeeping) and the unit step. */
module Signals {

  datatype Option<T> = None | Some(value: T)

  /** The decimal literal of `math.pi`, taken as an exact real. */
  const PI: real := 3.141592653589793

  /** A frequency given both ways: angular frequency `omega` [rad/s] and `f` [Hz]. */
  datatype Frequency = Frequency(omega: real, f: real)

  /** The precedence rule shared by both constructors: a supplied `f` wins over
      `omega`; otherwise `omega` is kept and `f` is derived from it. Either way the
      pair it returns is consistent, `omega == 2 * PI * f`. */
  function ResolveFrequency(omega: real, f: Option<real>): (r: Frequency)
    ensures r.omega == 2.0 * PI * r.f
    ensures f.Some? ==> r.f == f.value
    ensures f.None? ==> r.omega == omega
  {
    match f
    case None => Frequency(omega, omega / (2.0 * PI))
    case Some(hz) => Frequency(2.0 * PI * hz, hz)
  }

  /** Resolving a consistent pair again from its angular frequency alone, or from
      its frequency alone, gives the same pair back. */
  lemma ResolveFrequencyIdempotent(omega: real, f: Option<real>)
    ensures var r := ResolveFrequency(omega, f);
            ResolveFrequency(r.omega, None) == r && ResolveFrequency(0.0, Some(r.f)) == r
  {
  }

  /** The sinusoid `A * cos(omega * t + theta)`; only its parameters are modelled. */
  class SinWave {
    const A: real
    const theta: real
    const omega: real
    const f: real

    constructor (A: real, theta: real, omega: real := 0.0, f: Option<real> := None)
      ensures this.A == A && this.theta == theta
      ensures f.Some? ==> this.f == f.value && this.omega == 2.0 * PI * f.value
      ensures f.None? ==> this.omega == omega && this.f == omega / (2.0 * PI)
      ensures this.omega == 2.0 * PI * this.f
    {
      this.A := A;
      this.theta := theta;
      var freq := ResolveFrequency(omega, f);
      this.f := freq.f;
      this.omega := freq.omega;
    }
  }

  /** The complex exponential `A * exp(j * (omega * t + theta))`; only its
      parameters are modelled. */
  class ComplexExp {
    const A: real
    const theta: real
    const omega: real
    const f: real

    constructor (A: real, theta: real, omega: real := 0.0, f: Option<real> := None)
      ensures this.A == A && this.theta == theta
      ensures f.Some? ==> this.f == f.value && this.omega == 2.0 * PI * f.value
      ensures f.None? ==> this.omega == omega && this.f == omega / (2.0 * PI)
      ensures this.omega == 2.0 * PI * this.f
    {
      this.A := A;
      this.theta := theta;
      var freq := ResolveFrequency(omega, f);
      this.f := freq.f;
      this.omega := freq.omega;
    }
  }

  /** The unit step, evaluated elementwise: 1 from time 0 on, 0 before. */
  function U(t: real): (r: int)
    ensures r == 0 || r == 1
    ensures r == 1 <==> t >= 0.0
  {
    if t < 0.0 then 0 else 1
  }

  /** The step is 0 strictly before time 0 and 1 from time 0 on, and never decreases. */
  lemma UnitStepShape(t: real, t': real)
    ensures U(t) == 0 <==> t < 0.0
    ensures U(t) == 1 <==> t >= 0.0
    ensures t <= t' ==> U(t) <= U(t')
  {
  }
}
