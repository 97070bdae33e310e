/**
 * utils/ubid.py: the glue between footprints and the UBID codec. The codec itself
 * (buildingid.code.encode/decode) is left abstract in a UbidCodec record.
 */
module Ubid {
  import opened Geometry

  /** openlocationcode's PAIR_CODE_LENGTH_, the default code length. */
  const PairCodeLength: int := 10

  /** The centre of a decoded code area. */
  datatype CentroidArea = CentroidArea(latitudeCenter: real, longitudeCenter: real)

  /** What buildingid.code.decode returns: the bounding cell and its centroid cell. */
  datatype CodeArea = CodeArea(
    latitudeLo: real, longitudeLo: real, latitudeHi: real, longitudeHi: real,
    centroid: CentroidArea)

  /** The arguments of buildingid.code.encode, in its own order and with its own names. */
  datatype EncodeArgs = EncodeArgs(
    latitudeLo: real, longitudeLo: real, latitudeHi: real, longitudeHi: real,
    latitudeCenter: real, longitudeCenter: real, codeLength: int)

  /** The UBID library, left abstract. */
  datatype UbidCodec = UbidCodec(encode: EncodeArgs -> string, decode: string -> CodeArea)

  /** What encode_ubid hands to the codec: shapely's (minx, miny, maxx, maxy) and centroid (x, y) as latitude/longitude pairs. */
  function EncodeArguments(ops: GeometryOps, geometry: Polygon, codeLength: int): (a: EncodeArgs)
    ensures a.latitudeLo == ops.bounds(geometry).minY && a.longitudeLo == ops.bounds(geometry).minX
    ensures a.latitudeHi == ops.bounds(geometry).maxY && a.longitudeHi == ops.bounds(geometry).maxX
    ensures a.latitudeCenter == ops.centroid(geometry).y && a.longitudeCenter == ops.centroid(geometry).x
    ensures a.codeLength == codeLength
  {
    var b := ops.bounds(geometry);
    var c := ops.centroid(geometry);
    EncodeArgs(b.minY, b.minX, b.maxY, b.maxX, c.y, c.x, codeLength)
  }

  /** encode_ubid(geometry, code_length = PAIR_CODE_LENGTH_). */
  function EncodeUbid(ops: GeometryOps, codec: UbidCodec, geometry: Polygon, codeLength: int := PairCodeLength): (ubid: string)
    ensures ubid == codec.encode(EncodeArguments(ops, geometry, codeLength))
  {
    codec.encode(EncodeArguments(ops, geometry, codeLength))
  }

  /** A shapely bounds box that contains its geometry's centroid. */
  predicate CentroidInBounds(b: Bounds, c: Point)
  {
    b.minX <= c.x <= b.maxX && b.minY <= c.y <= b.maxY
  }

  /** The reordering keeps low with low and high with high: the codec is handed a latitude/longitude box around its centre. */
  lemma EncodeArgumentsKeepBox(ops: GeometryOps, geometry: Polygon, codeLength: int)
    requires CentroidInBounds(ops.bounds(geometry), ops.centroid(geometry))
    ensures var a := EncodeArguments(ops, geometry, codeLength);
      a.latitudeLo <= a.latitudeCenter <= a.latitudeHi && a.longitudeLo <= a.longitudeCenter <= a.longitudeHi
  {
  }

  /** bounding_box(ubid): the decoded cell as the ring upper-left, upper-right, lower-right, lower-left, upper-left. */
  function BoundingBox(codec: UbidCodec, ubid: string): (p: Polygon)
    ensures |p.shell| == 5 && p.shell[0] == p.shell[4]
    ensures var area := codec.decode(ubid);
      && p.shell[0] == Point(area.longitudeLo, area.latitudeHi)
      && p.shell[1] == Point(area.longitudeHi, area.latitudeHi)
      && p.shell[2] == Point(area.longitudeHi, area.latitudeLo)
      && p.shell[3] == Point(area.longitudeLo, area.latitudeLo)
  {
    var area := codec.decode(ubid);
    Polygon([
      Point(area.longitudeLo, area.latitudeHi),
      Point(area.longitudeHi, area.latitudeHi),
      Point(area.longitudeHi, area.latitudeLo),
      Point(area.longitudeLo, area.latitudeLo),
      Point(area.longitudeLo, area.latitudeHi)])
  }

  /** centroid(ubid): the decoded centroid, longitude as x and latitude as y. */
  function Centroid(codec: UbidCodec, ubid: string): (p: Point)
    ensures p.x == codec.decode(ubid).centroid.longitudeCenter
    ensures p.y == codec.decode(ubid).centroid.latitudeCenter
  {
    var area := codec.decode(ubid);
    Point(area.centroid.longitudeCenter, area.centroid.latitudeCenter)
  }

  /** Twice the signed (shoelace) area of the polygon traced by a closed ring; negative when clockwise. */
  function TwiceSignedArea(ring: seq<Point>): real
  {
    if |ring| < 2 then 0.0
    else (ring[0].x * ring[1].y - ring[1].x * ring[0].y) + TwiceSignedArea(ring[1..])
  }

  /** A code area whose low corner is not above or right of its high corner. */
  predicate WellFormedArea(area: CodeArea)
  {
    area.latitudeLo <= area.latitudeHi && area.longitudeLo <= area.longitudeHi
  }

  /** The bounding-box ring runs clockwise and encloses exactly the decoded cell. */
  lemma BoundingBoxEnclosesCell(codec: UbidCodec, ubid: string)
    ensures var area := codec.decode(ubid);
      TwiceSignedArea(BoundingBox(codec, ubid).shell)
        == -2.0 * (area.longitudeHi - area.longitudeLo) * (area.latitudeHi - area.latitudeLo)
  {
    var area := codec.decode(ubid);
    var r := BoundingBox(codec, ubid).shell;
    var lo, hi, w, e := area.latitudeLo, area.latitudeHi, area.longitudeLo, area.longitudeHi;
    assert r[4..][1..] == [];
    assert TwiceSignedArea(r[4..]) == 0.0;
    assert r[3..][1..] == r[4..];
    assert TwiceSignedArea(r[3..]) == w * hi - w * lo;
    assert r[2..][1..] == r[3..];
    assert TwiceSignedArea(r[2..]) == (e * lo - w * lo) + (w * hi - w * lo);
    assert r[1..][1..] == r[2..];
    assert TwiceSignedArea(r[1..]) == (e * lo - e * hi) + (e * lo - w * lo) + (w * hi - w * lo);
    assert TwiceSignedArea(r) == (w * hi - e * hi) + (e * lo - e * hi) + (e * lo - w * lo) + (w * hi - w * lo);
  }

  /** Every vertex of the bounding-box ring lies in the decoded cell. */
  lemma BoundingBoxVerticesInCell(codec: UbidCodec, ubid: string, i: nat)
    requires WellFormedArea(codec.decode(ubid)) && i < 5
    ensures var area, v := codec.decode(ubid), BoundingBox(codec, ubid).shell[i];
      area.longitudeLo <= v.x <= area.longitudeHi && area.latitudeLo <= v.y <= area.latitudeHi
  {
  }

  /**
   * centroid and bounding_box use the same axis convention: when the decoded centroid lies in
   * the decoded cell, the centroid point lies between the ring's lower-left and upper-right corners.
   */
  lemma CentroidInsideBoundingBox(codec: UbidCodec, ubid: string)
    requires var area := codec.decode(ubid);
      area.latitudeLo <= area.centroid.latitudeCenter <= area.latitudeHi
      && area.longitudeLo <= area.centroid.longitudeCenter <= area.longitudeHi
    ensures var ring, c := BoundingBox(codec, ubid).shell, Centroid(codec, ubid);
      ring[3].x <= c.x <= ring[1].x && ring[3].y <= c.y <= ring[1].y
  {
  }

  /** A cell of a GeoDataFrame; Null is pandas' missing value (None). */
  datatype Cell = Null | GeometryCell(polygon: Polygon) | PointCell(point: Point) | TextCell(text: string)

  function Nulls(n: nat): (r: seq<Cell>)
    ensures |r| == n && forall i :: 0 <= i < n ==> r[i] == Null
  {
    seq(n, _ => Null)
  }

  /** The columns of `wanted` not yet in `existing`, each once, in the order first asked for. */
  function AddedColumns(existing: seq<string>, wanted: seq<string>): (r: seq<string>)
    ensures forall c :: c in r <==> c in wanted && c !in existing
    ensures forall i, j :: 0 <= i < j < |r| ==> r[i] != r[j]
  {
    if wanted == [] then []
    else
      var prev := AddedColumns(existing, wanted[..|wanted| - 1]);
      var c := wanted[|wanted| - 1];
      assert forall d :: d in wanted <==> d in wanted[..|wanted| - 1] || d == c;
      if c in existing || c in prev then prev else prev + [c]
  }

  /** The columns add_ubid_to_geodataframe writes values into. */
  predicate IsFilledColumn(c: string, extraColumns: seq<string>)
  {
    c == "ubid" || (c == "ubid_centroid" && c in extraColumns) || (c == "ubid_bbox" && c in extraColumns)
  }

  /** The value a cell had before the call, Null for a column that did not exist. */
  function Previous(before: map<string, seq<Cell>>, c: string, r: nat): Cell
  {
    if c in before && r < |before[c]| then before[c][r] else Null
  }

  /** `column` with the rows whose footprint is not null replaced by `values`. */
  function WhereFootprint(column: seq<Cell>, footprints: seq<Cell>, values: seq<Cell>): (r: seq<Cell>)
    requires |column| == |footprints| == |values|
    ensures |r| == |column|
    ensures forall i :: 0 <= i < |r| ==> r[i] == if footprints[i].Null? then column[i] else values[i]
  {
    seq(|column|, i requires 0 <= i < |column| => if footprints[i].Null? then column[i] else values[i])
  }

  /** The cells after `gdf[column] = None` for each column of `wanted` not there yet, rows being `n`. */
  function WithColumns(before: map<string, seq<Cell>>, wanted: seq<string>, n: nat): (r: map<string, seq<Cell>>)
    ensures forall c :: c in r <==> c in before || c in wanted
    ensures forall c :: c in before ==> r[c] == before[c]
    ensures forall c :: c in r && c !in before ==> r[c] == Nulls(n)
  {
    if wanted == [] then before
    else
      var prev := WithColumns(before, wanted[..|wanted| - 1], n);
      var c := wanted[|wanted| - 1];
      assert forall d :: d in wanted <==> d in wanted[..|wanted| - 1] || d == c;
      if c in prev then prev else prev[c := Nulls(n)]
  }

  /** "ubid" and every extra column exist once they are created. */
  lemma WithColumnsHas(before: map<string, seq<Cell>>, first: string, rest: seq<string>, n: nat)
    ensures first in WithColumns(before, [first] + rest, n)
    ensures forall c :: c in rest ==> c in WithColumns(before, [first] + rest, n)
  {
    assert forall c :: c in rest ==> c in [first] + rest;
  }

  /** The ubid computed for each row: encode_ubid of the footprint, Null where there is none. */
  function UbidValues(ops: GeometryOps, codec: UbidCodec, footprints: seq<Cell>): (r: seq<Cell>)
    ensures |r| == |footprints|
    ensures forall i :: 0 <= i < |r| && footprints[i].GeometryCell? ==> r[i] == TextCell(EncodeUbid(ops, codec, footprints[i].polygon))
  {
    seq(|footprints|, i requires 0 <= i < |footprints| =>
      if footprints[i].GeometryCell? then TextCell(EncodeUbid(ops, codec, footprints[i].polygon)) else Null)
  }

  /** The centroid computed from the ubid column on each row with a footprint. */
  function CentroidValues(codec: UbidCodec, footprints: seq<Cell>, ubids: seq<Cell>): (r: seq<Cell>)
    requires |ubids| == |footprints|
    requires forall i :: 0 <= i < |footprints| && footprints[i].GeometryCell? ==> ubids[i].TextCell?
    ensures |r| == |footprints|
    ensures forall i :: 0 <= i < |r| && footprints[i].GeometryCell? ==> r[i] == PointCell(Centroid(codec, ubids[i].text))
  {
    seq(|footprints|, i requires 0 <= i < |footprints| =>
      if footprints[i].GeometryCell? then PointCell(Centroid(codec, ubids[i].text)) else Null)
  }

  /** The bounding box computed from the ubid column on each row with a footprint. */
  function BoundingBoxValues(codec: UbidCodec, footprints: seq<Cell>, ubids: seq<Cell>): (r: seq<Cell>)
    requires |ubids| == |footprints|
    requires forall i :: 0 <= i < |footprints| && footprints[i].GeometryCell? ==> ubids[i].TextCell?
    ensures |r| == |footprints|
    ensures forall i :: 0 <= i < |r| && footprints[i].GeometryCell? ==> r[i] == GeometryCell(BoundingBox(codec, ubids[i].text))
  {
    seq(|footprints|, i requires 0 <= i < |footprints| =>
      if footprints[i].GeometryCell? then GeometryCell(BoundingBox(codec, ubids[i].text)) else Null)
  }

  /** The columns FilledCells writes exist and have one cell per footprint. */
  predicate FillableCells(cells: map<string, seq<Cell>>, footprints: seq<Cell>, extraColumns: seq<string>)
  {
    && "ubid" in cells && |cells["ubid"]| == |footprints|
    && ("ubid_centroid" in extraColumns ==> "ubid_centroid" in cells && |cells["ubid_centroid"]| == |footprints|)
    && ("ubid_bbox" in extraColumns ==> "ubid_bbox" in cells && |cells["ubid_bbox"]| == |footprints|)
  }

  /** The cells after the three `.loc` assignments of lines 68-74. */
  function FilledCells(cells: map<string, seq<Cell>>, ops: GeometryOps, codec: UbidCodec, footprints: seq<Cell>,
                       extraColumns: seq<string>): map<string, seq<Cell>>
    requires FillableCells(cells, footprints, extraColumns)
  {
    var withUbid := cells["ubid" := WhereFootprint(cells["ubid"], footprints, UbidValues(ops, codec, footprints))];
    var ubids := withUbid["ubid"];
    var withCentroid :=
      if "ubid_centroid" in extraColumns
      then withUbid["ubid_centroid" := WhereFootprint(withUbid["ubid_centroid"], footprints, CentroidValues(codec, footprints, ubids))]
      else withUbid;
    if "ubid_bbox" in extraColumns
    then withCentroid["ubid_bbox" := WhereFootprint(withCentroid["ubid_bbox"], footprints, BoundingBoxValues(codec, footprints, ubids))]
    else withCentroid
  }

  /** The cells add_ubid_to_geodataframe leaves, for a frame of `n` rows whose footprint column exists. */
  function CellsWithUbid(before: map<string, seq<Cell>>, n: nat, ops: GeometryOps, codec: UbidCodec,
                         footprintColumn: string, extraColumns: seq<string>): map<string, seq<Cell>>
    requires footprintColumn in before && |before[footprintColumn]| == n
    requires forall c :: c in before ==> |before[c]| == n
  {
    var created := WithColumns(before, ["ubid"] + extraColumns, n);
    assert "ubid" in ["ubid"] + extraColumns;
    FilledCells(created, ops, codec, before[footprintColumn], extraColumns)
  }

  /** Every footprint cell is either missing or a polygon. */
  predicate Footprints(footprints: seq<Cell>)
  {
    forall r :: 0 <= r < |footprints| ==> footprints[r].Null? || footprints[r].GeometryCell?
  }

  /** Cells of a justly created column read as their previous value, None where the column is new. */
  lemma WithColumnsPrevious(before: map<string, seq<Cell>>, wanted: seq<string>, n: nat)
    requires forall c :: c in before ==> |before[c]| == n
    ensures forall c :: c in WithColumns(before, wanted, n) ==> |WithColumns(before, wanted, n)[c]| == n
    ensures forall c, r :: c in WithColumns(before, wanted, n) && 0 <= r < n ==>
      WithColumns(before, wanted, n)[c][r] == Previous(before, c, r)
  {
  }

  /** The column a `.loc` assignment of lines 68-74 writes, row by row. */
  predicate FilledColumn(after: seq<Cell>, before: seq<Cell>, footprints: seq<Cell>, value: seq<Cell>)
  {
    |after| == |before| == |footprints| == |value|
    && forall r :: 0 <= r < |after| ==> after[r] == if footprints[r].GeometryCell? then value[r] else before[r]
  }

  /** The ubid column after the assignments: encode_ubid on footprint rows, the old cell elsewhere. */
  lemma FilledCellsUbid(cells: map<string, seq<Cell>>, ops: GeometryOps, codec: UbidCodec, footprints: seq<Cell>,
                        extraColumns: seq<string>)
    requires FillableCells(cells, footprints, extraColumns) && Footprints(footprints)
    ensures var after := FilledCells(cells, ops, codec, footprints, extraColumns);
      "ubid" in after && FilledColumn(after["ubid"], cells["ubid"], footprints, UbidValues(ops, codec, footprints))
  {
  }

  /** The ubid_centroid column after the assignments: the centroid of the row's new UBID on footprint rows. */
  lemma FilledCellsCentroid(cells: map<string, seq<Cell>>, ops: GeometryOps, codec: UbidCodec, footprints: seq<Cell>,
                            extraColumns: seq<string>)
    requires FillableCells(cells, footprints, extraColumns) && Footprints(footprints)
    requires "ubid_centroid" in extraColumns
    ensures var after := FilledCells(cells, ops, codec, footprints, extraColumns);
      "ubid_centroid" in after
      && FilledColumn(after["ubid_centroid"], cells["ubid_centroid"], footprints,
                      seq(|footprints|, r requires 0 <= r < |footprints| =>
                        if footprints[r].GeometryCell? then PointCell(Centroid(codec, EncodeUbid(ops, codec, footprints[r].polygon))) else Null))
  {
  }

  /** The ubid_bbox column after the assignments: the bounding box of the row's new UBID on footprint rows. */
  lemma FilledCellsBoundingBox(cells: map<string, seq<Cell>>, ops: GeometryOps, codec: UbidCodec, footprints: seq<Cell>,
                               extraColumns: seq<string>)
    requires FillableCells(cells, footprints, extraColumns) && Footprints(footprints)
    requires "ubid_bbox" in extraColumns
    ensures var after := FilledCells(cells, ops, codec, footprints, extraColumns);
      "ubid_bbox" in after
      && FilledColumn(after["ubid_bbox"], cells["ubid_bbox"], footprints,
                      seq(|footprints|, r requires 0 <= r < |footprints| =>
                        if footprints[r].GeometryCell? then GeometryCell(BoundingBox(codec, EncodeUbid(ops, codec, footprints[r].polygon))) else Null))
  {
  }

  /** The assignments touch no column but the three they name, and keep every column's length. */
  lemma FilledCellsFrame(cells: map<string, seq<Cell>>, ops: GeometryOps, codec: UbidCodec, footprints: seq<Cell>,
                         extraColumns: seq<string>)
    requires FillableCells(cells, footprints, extraColumns)
    ensures var after := FilledCells(cells, ops, codec, footprints, extraColumns);
      && after.Keys == cells.Keys
      && (forall c :: c in cells ==> |after[c]| == |cells[c]|)
      && (forall c :: c in cells && !IsFilledColumn(c, extraColumns) ==> after[c] == cells[c])
  {
  }

  /**
   * What add_ubid_to_geodataframe does to the columns: it adds "ubid" and the extra columns where missing,
   * keeps every column's length, leaves every column it does not fill as it was, and new unfilled columns are None.
   */
  lemma CellsWithUbidFrame(before: map<string, seq<Cell>>, n: nat, ops: GeometryOps, codec: UbidCodec,
                           footprintColumn: string, extraColumns: seq<string>)
    requires footprintColumn in before && |before[footprintColumn]| == n
    requires forall c :: c in before ==> |before[c]| == n
    ensures var after := CellsWithUbid(before, n, ops, codec, footprintColumn, extraColumns);
      && (forall c :: c in after <==> c in before || c == "ubid" || c in extraColumns)
      && (forall c :: c in after ==> |after[c]| == n)
      && (forall c :: c in before && !IsFilledColumn(c, extraColumns) ==> after[c] == before[c])
      && (forall c :: c in after && c !in before && !IsFilledColumn(c, extraColumns) ==> after[c] == Nulls(n))
  {
    var wanted := ["ubid"] + extraColumns;
    assert forall c :: c in wanted <==> c == "ubid" || c in extraColumns;
    var created := WithColumns(before, wanted, n);
    WithColumnsPrevious(before, wanted, n);
    WithColumnsHas(before, "ubid", extraColumns, n);
    FilledCellsFrame(created, ops, codec, before[footprintColumn], extraColumns);
  }

  /** Each footprint row gets the UBID of its polygon in "ubid"; a row without one keeps its old value (None if new). */
  lemma CellsWithUbidIds(before: map<string, seq<Cell>>, n: nat, ops: GeometryOps, codec: UbidCodec,
                         footprintColumn: string, extraColumns: seq<string>)
    requires footprintColumn in before && |before[footprintColumn]| == n
    requires forall c :: c in before ==> |before[c]| == n
    requires Footprints(before[footprintColumn])
    ensures var after, fps := CellsWithUbid(before, n, ops, codec, footprintColumn, extraColumns), before[footprintColumn];
      "ubid" in after && |after["ubid"]| == n && forall r :: 0 <= r < n ==>
        after["ubid"][r] == if fps[r].GeometryCell? then TextCell(EncodeUbid(ops, codec, fps[r].polygon))
                            else Previous(before, "ubid", r)
  {
    var wanted := ["ubid"] + extraColumns;
    var created := WithColumns(before, wanted, n);
    WithColumnsPrevious(before, wanted, n);
    WithColumnsHas(before, "ubid", extraColumns, n);
    FilledCellsUbid(created, ops, codec, before[footprintColumn], extraColumns);
  }

  /** With "ubid_centroid" asked for, each footprint row gets the centroid of its UBID; other rows keep their value. */
  lemma CellsWithUbidCentroids(before: map<string, seq<Cell>>, n: nat, ops: GeometryOps, codec: UbidCodec,
                               footprintColumn: string, extraColumns: seq<string>)
    requires footprintColumn in before && |before[footprintColumn]| == n
    requires forall c :: c in before ==> |before[c]| == n
    requires Footprints(before[footprintColumn]) && "ubid_centroid" in extraColumns
    ensures var after, fps := CellsWithUbid(before, n, ops, codec, footprintColumn, extraColumns), before[footprintColumn];
      "ubid_centroid" in after && |after["ubid_centroid"]| == n && forall r :: 0 <= r < n ==>
        after["ubid_centroid"][r] == if fps[r].GeometryCell? then PointCell(Centroid(codec, EncodeUbid(ops, codec, fps[r].polygon)))
                                     else Previous(before, "ubid_centroid", r)
  {
    var wanted := ["ubid"] + extraColumns;
    var created := WithColumns(before, wanted, n);
    WithColumnsPrevious(before, wanted, n);
    WithColumnsHas(before, "ubid", extraColumns, n);
    FilledCellsCentroid(created, ops, codec, before[footprintColumn], extraColumns);
  }

  /** With "ubid_bbox" asked for, each footprint row gets the bounding box of its UBID; other rows keep their value. */
  lemma CellsWithUbidBoxes(before: map<string, seq<Cell>>, n: nat, ops: GeometryOps, codec: UbidCodec,
                           footprintColumn: string, extraColumns: seq<string>)
    requires footprintColumn in before && |before[footprintColumn]| == n
    requires forall c :: c in before ==> |before[c]| == n
    requires Footprints(before[footprintColumn]) && "ubid_bbox" in extraColumns
    ensures var after, fps := CellsWithUbid(before, n, ops, codec, footprintColumn, extraColumns), before[footprintColumn];
      "ubid_bbox" in after && |after["ubid_bbox"]| == n && forall r :: 0 <= r < n ==>
        after["ubid_bbox"][r] == if fps[r].GeometryCell? then GeometryCell(BoundingBox(codec, EncodeUbid(ops, codec, fps[r].polygon)))
                                 else Previous(before, "ubid_bbox", r)
  {
    var wanted := ["ubid"] + extraColumns;
    var created := WithColumns(before, wanted, n);
    WithColumnsPrevious(before, wanted, n);
    WithColumnsHas(before, "ubid", extraColumns, n);
    FilledCellsBoundingBox(created, ops, codec, before[footprintColumn], extraColumns);
  }

  /** A GeoDataFrame: named columns in order, each holding one cell per row. */
  class GeoDataFrame {
    var columns: seq<string>
    var cells: map<string, seq<Cell>>
    var rowCount: nat

    ghost predicate Valid()
      reads this
    {
      && (forall i, j :: 0 <= i < j < |columns| ==> columns[i] != columns[j])
      && (forall c :: c in cells <==> c in columns)
      && (forall c :: c in cells ==> |cells[c]| == rowCount)
    }

    constructor (columns: seq<string>, cells: map<string, seq<Cell>>, rowCount: nat)
      requires forall i, j :: 0 <= i < j < |columns| ==> columns[i] != columns[j]
      requires forall c :: c in cells <==> c in columns
      requires forall c :: c in cells ==> |cells[c]| == rowCount
      ensures Valid()
      ensures this.columns == columns && this.cells == cells && this.rowCount == rowCount
    {
      this.columns, this.cells, this.rowCount := columns, cells, rowCount;
    }

    /** `gdf[name] = None` for a column that does not exist yet. */
    method AddColumn(name: string)
      requires Valid() && name !in cells
      modifies this
      ensures Valid() && rowCount == old(rowCount)
      ensures columns == old(columns) + [name] && cells == old(cells)[name := Nulls(rowCount)]
    {
      columns := columns + [name];
      cells := cells[name := Nulls(rowCount)];
    }

    /** add_ubid_to_geodataframe; false where reading the footprint column raises KeyError. */
    method AddUbid(ops: GeometryOps, codec: UbidCodec, footprintColumn: string := "geometry",
                   extraColumns: seq<string> := ["ubid_centroid", "ubid_bbox"]) returns (ok: bool)
      requires Valid()
      requires footprintColumn in cells ==> Footprints(cells[footprintColumn])
      modifies this
      ensures Valid() && rowCount == old(rowCount)
      ensures ok <==> footprintColumn in old(cells)
      ensures !ok ==> columns == old(columns) && cells == old(cells)
      ensures ok ==> columns == old(columns) + AddedColumns(old(columns), ["ubid"] + extraColumns)
      ensures ok ==> cells == CellsWithUbid(old(cells), rowCount, ops, codec, footprintColumn, extraColumns)
    {
      if footprintColumn !in cells {
        return false;
      }
      ok := true;
      var footprints := cells[footprintColumn];
      ghost var before := cells;
      var wanted := ["ubid"] + extraColumns;
      CreateColumns(wanted);
      WithColumnsHas(before, "ubid", extraColumns, rowCount);
      FillUbidColumns(ops, codec, footprints, extraColumns);
    }

    /** The three `.loc` assignments of add_ubid_to_geodataframe, on rows with a footprint. */
    method FillUbidColumns(ops: GeometryOps, codec: UbidCodec, footprints: seq<Cell>, extraColumns: seq<string>)
      requires Valid() && |footprints| == rowCount
      requires "ubid" in cells && forall c :: c in extraColumns ==> c in cells
      modifies this
      ensures Valid() && rowCount == old(rowCount) && columns == old(columns)
      ensures FillableCells(old(cells), footprints, extraColumns)
      ensures cells == FilledCells(old(cells), ops, codec, footprints, extraColumns)
    {
      var n := |footprints|;
      SetWhereFootprint("ubid", footprints, UbidValues(ops, codec, footprints));
      var ubids := cells["ubid"];
      if "ubid_centroid" in extraColumns {
        SetWhereFootprint("ubid_centroid", footprints, CentroidValues(codec, footprints, ubids));
      }
      if "ubid_bbox" in extraColumns {
        SetWhereFootprint("ubid_bbox", footprints, BoundingBoxValues(codec, footprints, ubids));
      }
    }

    /** `for column in wanted: if column not in gdf.columns: gdf[column] = None`. */
    method CreateColumns(wanted: seq<string>)
      requires Valid()
      modifies this
      ensures Valid() && rowCount == old(rowCount)
      ensures columns == old(columns) + AddedColumns(old(columns), wanted)
      ensures cells == WithColumns(old(cells), wanted, rowCount)
    {
      var i := 0;
      while i < |wanted|
        invariant 0 <= i <= |wanted|
        invariant Valid() && rowCount == old(rowCount)
        invariant columns == old(columns) + AddedColumns(old(columns), wanted[..i])
        invariant cells == WithColumns(old(cells), wanted[..i], rowCount)
      {
        var column := wanted[i];
        assert wanted[..i + 1][..i] == wanted[..i];
        if column !in cells {
          AddColumn(column);
        }
        i := i + 1;
      }
      assert wanted[..i] == wanted;
    }

    /** `gdf.loc[filter, name] = values`, the filter being the rows whose footprint is not null. */
    method SetWhereFootprint(name: string, footprints: seq<Cell>, values: seq<Cell>)
      requires Valid() && name in cells && |footprints| == rowCount && |values| == rowCount
      modifies this
      ensures Valid() && rowCount == old(rowCount) && columns == old(columns)
      ensures cells == old(cells)[name := WhereFootprint(old(cells)[name], footprints, values)]
    {
      cells := cells[name := WhereFootprint(cells[name], footprints, values)];
    }
  }
}
