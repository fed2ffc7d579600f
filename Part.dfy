/**
 * The part record (src/Part.py): identity fields read from the
 * "Design Tracking Properties" set, the mass, and the centre of mass with
 * its axis-mass products.
 */
module Parts {
  import opened Host

  /**
   * Factor applied to every centre-of-mass coordinate the host reports:
   * converts the host's internal length unit (cm) to the report's (mm).
   */
  const CenterOfMassScale: real := 10.0

  /** The six centre-of-mass fields: x/y/z_axis and x/y/z_axis_mass. */
  datatype Axes = Axes(
    x: Option<real>, y: Option<real>, z: Option<real>,
    xMass: Option<real>, yMass: Option<real>, zMass: Option<real>)

  const NoAxes: Axes := Axes(None, None, None, None, None, None)

  /** The field values of one Part object. */
  datatype PartData = PartData(
    filename: string,
    partNumber: Option<Value>,
    partName: Option<Value>,
    mass: Option<Value>,
    axes: Axes)

  /** All six centre-of-mass fields are present, or none of them is. */
  predicate AllOrNone(a: Axes) {
    || (a.x.Some? && a.y.Some? && a.z.Some? && a.xMass.Some? && a.yMass.Some? && a.zMass.Some?)
    || a == NoAxes
  }

  /** The two identity properties Part.__init__ reads without a `try`. */
  predicate IdentityReadable(d: Doc) {
    && DesignTracking in d.propertySets
    && PartNumberProperty in d.propertySets[DesignTracking]
    && DescriptionProperty in d.propertySets[DesignTracking]
  }

  /**
   * Python's `length * self.mass`: a number times a numeric mass; any other
   * mass (None, a string) raises TypeError, shown here as None.
   */
  function Times(length: real, mass: Option<Value>): (r: Option<real>)
    ensures r.Some? <==> mass.Some? && mass.value.Number?
    ensures r.Some? ==> r.value == length * mass.value.r
  {
    match mass
    case Some(Number(m)) => Some(length * m)
    case _ => None
  }

  /** The first `try` of Part.__init__: the mass, or None when reading it fails. */
  function MassOf(d: Doc): Option<Value> {
    match d.mass
    case Some(m) => Some(Number(m))
    case None => None
  }

  /**
   * The second `try` of Part.__init__: reading the centre of mass, scaling
   * it, then multiplying by the mass. Any failure on the way (no centre of
   * mass, or a mass that is not a number) lands in the `except` branch,
   * which resets all six fields.
   */
  function AxesOf(centerOfMass: Option<Vec3>, mass: Option<Value>): (a: Axes)
    ensures AllOrNone(a)
    ensures a.x.Some? <==> centerOfMass.Some? && mass.Some? && mass.value.Number?
    ensures a.x.Some? ==>
      && centerOfMass.Some? && mass.Some? && mass.value.Number?
      && a.x == Some(centerOfMass.value.x * CenterOfMassScale)
      && a.y == Some(centerOfMass.value.y * CenterOfMassScale)
      && a.z == Some(centerOfMass.value.z * CenterOfMassScale)
      && a.xMass == Times(a.x.value, mass)
      && a.yMass == Times(a.y.value, mass)
      && a.zMass == Times(a.z.value, mass)
  {
    match centerOfMass
    case None => NoAxes
    case Some(c) =>
      var x, y, z := c.x * CenterOfMassScale, c.y * CenterOfMassScale, c.z * CenterOfMassScale;
      var xm, ym, zm := Times(x, mass), Times(y, mass), Times(z, mass);
      if xm.None? || ym.None? || zm.None? then NoAxes
      else Axes(Some(x), Some(y), Some(z), xm, ym, zm)
  }

  /**
   * The record Part.__init__ builds from the currently selected view, or
   * None when the constructor raises: no view was ever selected, or the
   * identity properties are missing.
   */
  function Build(view: Option<View>): (r: Option<PartData>)
    ensures r.Some? <==> view.Some? && IdentityReadable(view.value.doc)
    ensures r.Some? ==>
      var d, p := view.value.doc, r.value;
      var props := d.propertySets[DesignTracking];
      && p.filename == d.fullFileName
      && p.partNumber == Some(props[PartNumberProperty])
      && p.partName == Some(props[DescriptionProperty])
    // mass is a soft failure: present exactly when the host reports it
    ensures r.Some? ==>
      var d, p := view.value.doc, r.value;
      && (p.mass.Some? <==> d.mass.Some?)
      && (d.mass.Some? ==> p.mass == Some(Number(d.mass.value)))
    // all six or none, and only together with a mass
    ensures r.Some? ==> AllOrNone(r.value.axes)
    ensures r.Some? ==>
      var d := view.value.doc;
      r.value.axes.x.Some? <==> d.mass.Some? && d.centerOfMass.Some?
    ensures r.Some? && r.value.axes.x.Some? ==>
      var d, a := view.value.doc, r.value.axes;
      var c, m := d.centerOfMass.value, d.mass.value;
      && a.x == Some(c.x * CenterOfMassScale)
      && a.y == Some(c.y * CenterOfMassScale)
      && a.z == Some(c.z * CenterOfMassScale)
      && a.xMass == Times(a.x.value, Some(Number(m)))
      && a.yMass == Times(a.y.value, Some(Number(m)))
      && a.zMass == Times(a.z.value, Some(Number(m)))
  {
    match view
    case None => None
    case Some(v) =>
      var d := v.doc;
      if !IdentityReadable(d) then None
      else
        var props := d.propertySets[DesignTracking];
        var mass := MassOf(d);
        Some(PartData(d.fullFileName, Some(props[PartNumberProperty]), Some(props[DescriptionProperty]),
                      mass, AxesOf(d.centerOfMass, mass)))
  }

  /** A Part object; get_part_details reassigns some of its fields later. */
  class Part {
    var filename: string
    var partNumber: Option<Value>
    var partName: Option<Value>
    var mass: Option<Value>
    var xAxis: Option<real>
    var yAxis: Option<real>
    var zAxis: Option<real>
    var xAxisMass: Option<real>
    var yAxisMass: Option<real>
    var zAxisMass: Option<real>

    function Data(): PartData
      reads this
    {
      PartData(filename, partNumber, partName, mass,
               Axes(xAxis, yAxis, zAxis, xAxisMass, yAxisMass, zAxisMass))
    }

    /**
     * Part.__init__ on a view whose identity properties exist; when they do
     * not, the source raises, which NewPart models.
     */
    constructor (view: View)
      requires IdentityReadable(view.doc)
      ensures Build(Some(view)) == Some(Data())
    {
      var d := view.doc;
      var props := d.propertySets[DesignTracking];
      filename := d.fullFileName;
      partNumber := Some(props[PartNumberProperty]);
      partName := Some(props[DescriptionProperty]);
      new;

      // try: the mass
      match d.mass {
        case Some(m) => mass := Some(Number(m));
        case None => mass := None;
      }
      assert mass == MassOf(d);

      // try: the centre of mass, then the axis-mass products
      match d.centerOfMass {
        case None =>
          xAxis, yAxis, zAxis := None, None, None;
          xAxisMass, yAxisMass, zAxisMass := None, None, None;
          assert Data().axes == AxesOf(d.centerOfMass, mass);
        case Some(c) =>
          xAxis := Some(c.x * CenterOfMassScale);
          yAxis := Some(c.y * CenterOfMassScale);
          zAxis := Some(c.z * CenterOfMassScale);
          var product := Times(xAxis.value, mass);
          if product.None? {
            // except: every field of the block is reset
            xAxis, yAxis, zAxis := None, None, None;
            xAxisMass, yAxisMass, zAxisMass := None, None, None;
          } else {
            xAxisMass := product;
            yAxisMass := Times(yAxis.value, mass);
            zAxisMass := Times(zAxis.value, mass);
          }
          assert Data().axes == AxesOf(d.centerOfMass, mass);
      }
    }
  }

  /** `Part(view)`: a fresh Part, or null where the constructor raises. */
  method NewPart(view: Option<View>) returns (part: Part?)
    ensures part == null <==> Build(view).None?
    ensures part != null ==> fresh(part) && Build(view) == Some(part.Data())
  {
    if view.Some? && IdentityReadable(view.value.doc) {
      part := new Part(view.value);
    } else {
      part := null;
    }
  }
}
