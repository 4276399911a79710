/** The parsing half of `read_points_from_file` in posture.py: every line of
    a reference-skeleton file holds one `x,y` pair. Opening and reading the
    file is left out; the file is given as the lines Python iterates over. */
module PointFile {
  import opened Base
  import opened PyStrings

  /** Python's `float()` on one field: the value, or `None` where it raises
      `ValueError`. */
  type FloatParser = string -> Option<real>

  /** Why a line was refused: the unpacking into `x, y` found another number
      of fields, or `float()` refused a field. */
  datatype LineError = WrongFieldCount(fields: nat) | NotANumber(field: string)

  /** The exception that ends the read, with the 0-based index of its line. */
  datatype ParseError = ParseError(line: nat, kind: LineError)

  /** `x, y = line.strip().split(',')` followed by `(float(x), float(y))`. */
  function ParseLine(line: string, toReal: FloatParser): Result<Point, LineError>
  {
    var fields := Split(Strip(line), ',');
    if |fields| != 2 then Err(WrongFieldCount(|fields|))
    else
      match toReal(fields[0])
      case None => Err(NotANumber(fields[0]))
      case Some(x) =>
        match toReal(fields[1])
        case None => Err(NotANumber(fields[1]))
        case Some(y) => Ok(Point(x, y))
  }

  /** The unpacking succeeds exactly when the stripped line holds one comma. */
  lemma FieldCountRule(line: string, toReal: FloatParser)
    ensures ParseLine(line, toReal).Err? && ParseLine(line, toReal).error.WrongFieldCount?
      <==> Occurrences(Strip(line), ',') != 1
  {
    SplitCount(Strip(line), ',');
  }

  /** A parsed pair comes from a line that strips to `x + "," + y`, with
      comma-free fields that `float()` reads as the two coordinates. */
  lemma ParsedLineShape(line: string, toReal: FloatParser)
    requires ParseLine(line, toReal).Ok?
    ensures var p := ParseLine(line, toReal).value;
      var fields := Split(Strip(line), ',');
      && Strip(line) == fields[0] + [','] + fields[1]
      && ',' !in fields[0] && ',' !in fields[1]
      && toReal(fields[0]) == Some(p.x) && toReal(fields[1]) == Some(p.y)
  {
    var s := Strip(line);
    var fields := Split(s, ',');
    JoinSplit(s, ',');
    SplitPiecesFree(s, ',');
    assert Join(fields, ',') == fields[0] + [','] + Join(fields[1..], ',');
    assert fields[1..] == [fields[1]];
  }

  /** The inverse direction: a pair written as `x,y` with no surrounding
      whitespace reads back as the two values `float()` gives its fields. */
  lemma ParseRendered(xs: string, ys: string, toReal: FloatParser, x: real, y: real)
    requires ',' !in xs && ',' !in ys
    requires xs != [] ==> !IsSpace(xs[0])
    requires ys != [] ==> !IsSpace(ys[|ys| - 1])
    requires toReal(xs) == Some(x) && toReal(ys) == Some(y)
    ensures ParseLine(xs + [','] + ys, toReal) == Ok(Point(x, y))
  {
    var s := xs + [','] + ys;
    assert !IsSpace(s[0]) by {
      if xs == [] {
        assert s[0] == ',';
      } else {
        assert s[0] == xs[0];
      }
    }
    assert StripStart(s) == s;
    assert !IsSpace(s[|s| - 1]) by {
      if ys == [] {
        assert s[|s| - 1] == ',';
      } else {
        assert s[|s| - 1] == ys[|ys| - 1];
      }
    }
    assert Strip(s) == s;
    SplitAfterFree(xs, ys, ',');
    SplitFree(ys, ',');
  }

  /** The body of the loop for one line: `x, y = line.strip().split(',')`,
      then `float(x)` and `float(y)`, each step able to raise. */
  method ReadPoint(line: string, toReal: FloatParser) returns (r: Result<Point, LineError>)
    ensures r == ParseLine(line, toReal)
  {
    var fields := Split(Strip(line), ',');
    if |fields| != 2 {
      return Err(WrongFieldCount(|fields|));
    }
    var x, y := fields[0], fields[1];
    var fx := toReal(x);
    if fx.None? {
      return Err(NotANumber(x));
    }
    var fy := toReal(y);
    if fy.None? {
      return Err(NotANumber(y));
    }
    return Ok(Point(fx.value, fy.value));
  }

  /** The parsing loop of `read_points_from_file`: one pair per line in file
      order, or the error of the first line that does not parse. */
  method ReadPoints(lines: seq<string>, toReal: FloatParser) returns (r: Result<seq<Point>, ParseError>)
    ensures r.Ok? <==> forall i :: 0 <= i < |lines| ==> ParseLine(lines[i], toReal).Ok?
    ensures r.Ok? ==>
      && |r.value| == |lines|
      && forall i :: 0 <= i < |lines| ==> ParseLine(lines[i], toReal) == Ok(r.value[i])
    ensures r.Err? ==>
      && r.error.line < |lines|
      && ParseLine(lines[r.error.line], toReal) == Err(r.error.kind)
      && forall i :: 0 <= i < r.error.line ==> ParseLine(lines[i], toReal).Ok?
  {
    var points: seq<Point> := [];
    for i := 0 to |lines|
      invariant |points| == i
      invariant forall m :: 0 <= m < i ==> ParseLine(lines[m], toReal) == Ok(points[m])
    {
      var point := ReadPoint(lines[i], toReal);
      if point.Err? {
        return Err(ParseError(i, point.error));
      }
      points := points + [point.value];
    }
    return Ok(points);
  }
}
