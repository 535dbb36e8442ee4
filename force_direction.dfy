/**
 * The direction of the two forces of the CPU layout step: repulsion pushes a
 * pair apart and a spring pulls its endpoints together, whenever the
 * corresponding constant is non-negative.
 */
module ForceDirection {
  import opened Wrappers
  import opened GraphTypes
  import opened Physics

  /** A non-negative multiple of `d` never points against `d`. */
  lemma AlongNonNegative(d: Vec3, dist: real, factor: real)
    requires dist > 0.0 && factor >= 0.0
    ensures Dot(Along(d, dist, factor), d) >= 0.0
  {
    var k := factor / dist;
    assert k >= 0.0;
    assert d.x / dist * factor == k * d.x;
    assert d.y / dist * factor == k * d.y;
    assert d.z / dist * factor == k * d.z;
    assert Dot(Along(d, dist, factor), d) == k * d.x * d.x + k * d.y * d.y + k * d.z * d.z;
    assert k * d.x * d.x >= 0.0 && k * d.y * d.y >= 0.0 && k * d.z * d.z >= 0.0;
  }

  /** Two repulsion masses never have a negative product: the mass scale appears squared. */
  lemma MassProductNonNegative(p: SimulationParams, a: NodeData, b: NodeData)
    ensures RepulsionMass(p, a) * RepulsionMass(p, b) >= 0.0
  {
    var ca, cb, s := a.mass as real / 255.0 * 10.0, b.mass as real / 255.0 * 10.0, p.massScale;
    assert ca >= 0.0 && cb >= 0.0;
    assert (ca * s) * (cb * s) == (ca * cb) * (s * s);
    assert ca * cb >= 0.0 && s * s >= 0.0;
  }

  lemma RepulsionAlongValue(p: SimulationParams, sqrt: SquareRoot, d: Vec3, d2: real, ma: real, mb: real)
    requires d2 >= MinDistanceSquared && sqrt(d2) <= p.maxRepulsionDistance
    ensures RepulsionAlong(p, sqrt, d, d2, ma, mb) == Some(Along(d, sqrt(d2), RepulsionFactor(p, ma, mb, d2)))
  {
  }

  lemma RepulsionFactorNonNegative(p: SimulationParams, ma: real, mb: real, d2: real)
    requires p.repulsion >= 0.0 && ma * mb >= 0.0 && d2 > 0.0
    ensures RepulsionFactor(p, ma, mb, d2) >= 0.0
  {
    assert p.repulsion * ma * mb == p.repulsion * (ma * mb);
    assert p.repulsion * (ma * mb) >= 0.0;
  }

  lemma RepulsionAlongNonNegative(p: SimulationParams, sqrt: SquareRoot, d: Vec3, d2: real, ma: real, mb: real)
    requires p.repulsion >= 0.0 && ma * mb >= 0.0
    ensures RepulsionAlong(p, sqrt, d, d2, ma, mb).Some? ==>
              Dot(RepulsionAlong(p, sqrt, d, d2, ma, mb).value, d) >= 0.0
  {
    if d2 >= MinDistanceSquared && sqrt(d2) <= p.maxRepulsionDistance {
      RepulsionAlongValue(p, sqrt, d, d2, ma, mb);
      RepulsionFactorNonNegative(p, ma, mb, d2);
      AlongNonNegative(d, sqrt(d2), RepulsionFactor(p, ma, mb, d2));
    }
  }

  lemma SpringAlongValue(p: SimulationParams, sqrt: SquareRoot, d: Vec3, d2: real, weight: nat)
    requires d2 >= MinDistanceSquared
    ensures SpringAlong(p, sqrt, d, d2, weight) == Some(Along(d, sqrt(d2), SpringFactor(p, weight, sqrt(d2))))
  {
  }

  lemma SpringFactorNonNegative(p: SimulationParams, weight: nat, dist: real)
    requires p.springStrength >= 0.0 && dist > 0.0
    ensures SpringFactor(p, weight, dist) >= 0.0
  {
    assert p.springStrength * weight as real >= 0.0;
  }

  lemma SpringAlongNonNegative(p: SimulationParams, sqrt: SquareRoot, d: Vec3, d2: real, weight: nat)
    requires p.springStrength >= 0.0
    ensures SpringAlong(p, sqrt, d, d2, weight).Some? ==>
              Dot(SpringAlong(p, sqrt, d, d2, weight).value, d) >= 0.0
  {
    if d2 >= MinDistanceSquared {
      SpringAlongValue(p, sqrt, d, d2, weight);
      SpringFactorNonNegative(p, weight, sqrt(d2));
      AlongNonNegative(d, sqrt(d2), SpringFactor(p, weight, sqrt(d2)));
    }
  }

  /**
   * Repulsion pushes apart: with a non-negative repulsion constant, the force
   * node `b` receives points away from node `a` (node `a` gets its opposite).
   */
  lemma RepulsionPushesApart(p: SimulationParams, sqrt: SquareRoot, a: NodeData, b: NodeData)
    requires p.repulsion >= 0.0
    ensures RepulsionForce(p, sqrt, a, b).Some? ==>
              Dot(RepulsionForce(p, sqrt, a, b).value, Sub(b.position, a.position)) >= 0.0
  {
    var d := Sub(b.position, a.position);
    MassProductNonNegative(p, a, b);
    RepulsionAlongNonNegative(p, sqrt, d, Dot(d, d), RepulsionMass(p, a), RepulsionMass(p, b));
  }

  /**
   * Springs pull together: with a non-negative spring strength, the force
   * node `a` receives along an edge points towards node `b` (node `b` gets
   * its opposite).
   */
  lemma SpringPullsTogether(p: SimulationParams, sqrt: SquareRoot, a: NodeData, b: NodeData, weight: nat)
    requires p.springStrength >= 0.0
    ensures SpringForce(p, sqrt, a, b, weight).Some? ==>
              Dot(SpringForce(p, sqrt, a, b, weight).value, Sub(b.position, a.position)) >= 0.0
  {
    var d := Sub(b.position, a.position);
    SpringAlongNonNegative(p, sqrt, d, Dot(d, d), weight);
  }
}
