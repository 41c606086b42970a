/** The decision logic of PhongShading in ConsoleApp1/RayTracer.cs: the
    per-object material dispatch, the diffuse term and the sum of the three
    reflection terms before gamma encoding. */
module Shading {
  import opened Vectors
  import opened Geometry
  import opened Options

  /** Ambient, diffuse and specular reflectances and the specular exponent. */
  datatype Material = Material(ka: Vec3, kd: Vec3, ks: Vec3, specPower: real)

  /** The exception PhongShading throws for an object of an unknown type. */
  datatype ShadeError = InvalidObjectType

  function Grey(g: real): Vec3 {
    Vec3(g, g, g)
  }

  predicate InUnitCube(c: Vec3) {
    0.0 <= c.x <= 1.0 && 0.0 <= c.y <= 1.0 && 0.0 <= c.z <= 1.0
  }

  predicate NonNegative(c: Vec3) {
    0.0 <= c.x && 0.0 <= c.y && 0.0 <= c.z
  }

  /** Every reflectance channel lies in [0, 1] and the exponent is non-negative. */
  predicate ValidMaterial(m: Material) {
    InUnitCube(m.ka) && InUnitCube(m.kd) && InUnitCube(m.ks) && 0.0 <= m.specPower
  }

  /** The material step of PhongShading: start from all-zero coefficients,
      overwrite them for a plane or for a sphere centred at one of the three
      known centres, leave them at zero for a sphere anywhere else, and throw
      for any other kind of object. */
  method SelectMaterial(obj: Primitive) returns (r: Result<Material, ShadeError>)
    ensures r.Failure? <==> obj.Unrecognized?
    ensures r.Success? ==> ValidMaterial(r.value)
    ensures obj.Plane? ==> r == Success(Material(Grey(0.2), Grey(1.0), Zero, 0.0))
    ensures obj.Sphere? && obj.center == Vec3(-4.0, 0.0, -7.0) ==>
              r == Success(Material(Vec3(0.2, 0.0, 0.0), Vec3(1.0, 0.0, 0.0), Zero, 0.0))
    ensures obj.Sphere? && obj.center == Vec3(0.0, 0.0, -7.0) ==>
              r == Success(Material(Vec3(0.0, 0.2, 0.0), Vec3(0.0, 0.5, 0.0), Grey(0.5), 32.0))
    ensures obj.Sphere? && obj.center == Vec3(4.0, 0.0, -7.0) ==>
              r == Success(Material(Vec3(0.0, 0.0, 0.2), Vec3(0.0, 0.0, 1.0), Zero, 0.0))
    ensures obj.Sphere? && obj.center !in {Vec3(-4.0, 0.0, -7.0), Vec3(0.0, 0.0, -7.0), Vec3(4.0, 0.0, -7.0)} ==>
              r == Success(Material(Zero, Zero, Zero, 0.0))
  {
    var ka := Zero;
    var kd := Zero;
    var ks := Zero;
    var specPower := 0.0;
    if obj.Plane? {
      ka := Grey(0.2);
      kd := Grey(1.0);
      ks := Zero;
      specPower := 0.0;
    } else if obj.Sphere? {
      if obj.center == Vec3(-4.0, 0.0, -7.0) {
        ka := Vec3(0.2, 0.0, 0.0);
        kd := Vec3(1.0, 0.0, 0.0);
        ks := Zero;
        specPower := 0.0;
      } else if obj.center == Vec3(0.0, 0.0, -7.0) {
        ka := Vec3(0.0, 0.2, 0.0);
        kd := Vec3(0.0, 0.5, 0.0);
        ks := Grey(0.5);
        specPower := 32.0;
      } else if obj.center == Vec3(4.0, 0.0, -7.0) {
        ka := Vec3(0.0, 0.0, 0.2);
        kd := Vec3(0.0, 0.0, 1.0);
        ks := Zero;
        specPower := 0.0;
      }
    } else {
      return Failure(InvalidObjectType);
    }
    r := Success(Material(ka, kd, ks, specPower));
  }

  /** max(dot(lightDir, normal), 0): the cosine of the light angle, clamped so
      that surfaces facing away from the light get no diffuse light. */
  function DiffuseTerm(lightDir: Vec3, normal: Vec3): (d: real)
    ensures 0.0 <= d && Dot(lightDir, normal) <= d
    ensures d == Dot(lightDir, normal) || d == 0.0
  {
    if Dot(lightDir, normal) > 0.0 then Dot(lightDir, normal) else 0.0
  }

  /** ka + kd*diffuseTerm + ks*specularTerm, the colour before gamma encoding.
      With a valid material and non-negative terms it never drops below the
      ambient colour, so the base of every gamma power is non-negative. */
  function LinearColor(m: Material, diffuseTerm: real, specularTerm: real): (c: Vec3)
    requires ValidMaterial(m) && 0.0 <= diffuseTerm && 0.0 <= specularTerm
    ensures NonNegative(c)
    ensures m.ka.x <= c.x && m.ka.y <= c.y && m.ka.z <= c.z
  {
    ProductNonNegative(m.kd.x, diffuseTerm);
    ProductNonNegative(m.kd.y, diffuseTerm);
    ProductNonNegative(m.kd.z, diffuseTerm);
    ProductNonNegative(m.ks.x, specularTerm);
    ProductNonNegative(m.ks.y, specularTerm);
    ProductNonNegative(m.ks.z, specularTerm);
    Add(Add(m.ka, Scale(m.kd, diffuseTerm)), Scale(m.ks, specularTerm))
  }
}
