/**
 * The PLY reading of Assets/Scripts/PlyRenderer.cs: the header parser, the
 * defaults a point gets when its file lacks a property, the split of the
 * points into meshes of at most 65535 vertices, and the assignment of faces
 * to those meshes. Lines arrive as strings (ReadLine strips the terminator);
 * the streams themselves are not modelled.
 */
module PlyRenderer {
  import opened Wrappers
  import opened Linear
  import ColorUtils
  import opened Decimal
  import opened Tokens
  import PlyWriter

  /** Unity's 16-bit index limit: the most points one mesh holds (line 21). */
  const MaxPoints: int := 65535

  datatype Format = Ascii | BinaryLittleEndian

  datatype Topology = Points | Triangles

  /** A vertex property: its name and type; its index is its position in the header. */
  datatype Property = Property(name: string, kind: string)

  /**
   * What ParseHeader leaves behind: the format, the vertex count, the
   * properties in order, the topology, the face count, and the index of the
   * first line after the header.
   */
  datatype Header = Header(
    format: Format,
    vertexCount: int,
    properties: seq<Property>,
    topology: Topology,
    faceCount: int,
    dataStart: nat)

  /**
   * Why ParseHeader stops: a line read past the end of the file (null.Split),
   * a missing token (index out of range), an integer int.Parse rejects, a
   * property name declared twice (Dictionary.Add), or no "end_header" line, on
   * which the source's final loop never ends.
   */
  datatype HeaderError = MissingLine | MissingToken | BadInteger | DuplicateProperty | NoEndHeader

  // ------------------------------------------------------------------ header

  predicate HasName(props: seq<Property>, name: string) {
    exists i :: 0 <= i < |props| && props[i].name == name
  }

  predicate DistinctNames(props: seq<Property>) {
    forall i, j :: 0 <= i < j < |props| ==> props[i].name != props[j].name
  }

  /** The first line at or after `from` whose first token is `keyword` (the loops of lines 211-213 and 219-221). */
  function FindKeyword(lines: seq<string>, from: nat, keyword: string): (r: Option<nat>)
    ensures r.Some? ==> from <= r.value < |lines| && Split(lines[r.value])[0] == keyword
    ensures r.Some? ==> forall j :: from <= j < r.value ==> Split(lines[j])[0] != keyword
    ensures r.None? ==> forall j :: from <= j < |lines| ==> Split(lines[j])[0] != keyword
    decreases |lines| - from
  {
    if from >= |lines| then None
    else if Split(lines[from])[0] == keyword then Some(from)
    else FindKeyword(lines, from + 1, keyword)
  }

  /** The first line at or after `from` that is exactly "end_header" (line 246). */
  function FindEndHeader(lines: seq<string>, from: nat): (r: Option<nat>)
    ensures r.Some? ==> from <= r.value < |lines| && lines[r.value] == "end_header"
    ensures r.Some? ==> forall j :: from <= j < r.value ==> lines[j] != "end_header"
    ensures r.None? ==> forall j :: from <= j < |lines| ==> lines[j] != "end_header"
    decreases |lines| - from
  {
    if from >= |lines| then None
    else if lines[from] == "end_header" then Some(from)
    else FindEndHeader(lines, from + 1)
  }

  /**
   * Lines 222-228: from line i on, each "property <type> <name>" line adds
   * (name, type) under the next index, until a line whose first token is not
   * "property". Gives the properties and the index of that line.
   */
  function ReadProperties(lines: seq<string>, i: nat, acc: seq<Property>): (r: Result<(seq<Property>, nat), HeaderError>)
    requires i < |lines| && DistinctNames(acc)
    ensures r.Success? ==> i < r.value.1 < |lines| && DistinctNames(r.value.0)
    ensures r.Failure? ==> r.error != NoEndHeader
    decreases |lines| - i
  {
    var t := Split(lines[i]);
    if |t| < 3 then Failure(MissingToken)
    else if HasName(acc, t[2]) then Failure(DuplicateProperty)
    else
      var acc' := acc + [Property(t[2], t[1])];
      DistinctAppend(acc, Property(t[2], t[1]));
      if i + 1 >= |lines| then Failure(MissingLine)
      else if Split(lines[i + 1])[0] == "property" then ReadProperties(lines, i + 1, acc')
      else Success((acc', i + 1))
  }

  lemma DistinctAppend(acc: seq<Property>, p: Property)
    requires DistinctNames(acc) && !HasName(acc, p.name)
    ensures DistinctNames(acc + [p])
  {
  }

  /**
   * What ReadProperties reads: from line i on, one property per line, in
   * order, after those already read, up to the first line whose first token
   * is not "property".
   */
  lemma {:induction false} ReadPropertiesRun(lines: seq<string>, i: nat, acc: seq<Property>)
    requires i < |lines| && DistinctNames(acc) && ReadProperties(lines, i, acc).Success?
    ensures var (props, next) := ReadProperties(lines, i, acc).value;
      && |props| == |acc| + (next - i)
      && props[..|acc|] == acc
      && Split(lines[next])[0] != "property"
      && (forall j :: i < j < next ==> Split(lines[j])[0] == "property")
      && (forall j :: i <= j < next ==>
            |Split(lines[j])| >= 3 && props[|acc| + (j - i)] == Property(Split(lines[j])[2], Split(lines[j])[1]))
    decreases |lines| - i
  {
    var t := Split(lines[i]);
    var acc' := acc + [Property(t[2], t[1])];
    DistinctAppend(acc, Property(t[2], t[1]));
    if Split(lines[i + 1])[0] == "property" {
      ReadPropertiesRun(lines, i + 1, acc');
      var (props, next) := ReadProperties(lines, i, acc).value;
      assert (props, next) == ReadProperties(lines, i + 1, acc').value;
      assert props[..|acc|] == props[..|acc'|][..|acc|];
      assert props[|acc|] == acc'[|acc|];
      forall j | i < j < next
        ensures |Split(lines[j])| >= 3 && props[|acc| + (j - i)] == Property(Split(lines[j])[2], Split(lines[j])[1])
      {
        assert |acc| + (j - i) == |acc'| + (j - (i + 1));
      }
    }
  }

  /** Lines 233-238: a "... face <count>" line after the properties gives the face count, otherwise 0. */
  function FaceCount(tokens: seq<string>): (r: Result<int, HeaderError>)
    ensures |tokens| <= 1 || tokens[1] != "face" ==> r == Success(0)
    ensures |tokens| > 1 && tokens[1] == "face" ==>
      (r.Success? <==> |tokens| >= 3 && ParseInt32(tokens[2]).Some?)
    ensures |tokens| > 1 && tokens[1] == "face" && r.Success? ==> r.value == ParseInt32(tokens[2]).value
  {
    if |tokens| > 1 && tokens[1] == "face" then
      if |tokens| < 3 then Failure(MissingToken)
      else match ParseInt32(tokens[2])
        case None => Failure(BadInteger)
        case Some(n) => Success(n)
    else Success(0)
  }

  /** The format named by token 1 of the second line (lines 201-207); an unknown name leaves the default, ascii. */
  function FormatOf(name: string): (f: Format)
    ensures f == BinaryLittleEndian <==> name == "binary_little_endian"
  {
    if name == "ascii" then Ascii
    else if name == "binary_little_endian" then BinaryLittleEndian
    else Ascii
  }

  /**
   * The end of the header after the property run, which ends before line q
   * (lines 230-246): line q gives the face count, and the data starts after
   * line q when its first token is "end_header", otherwise after the first
   * later line that is exactly "end_header".
   */
  predicate HeaderEnd(lines: seq<string>, q: nat, faceCount: int, dataStart: nat) {
    && q < dataStart <= |lines|
    && FaceCount(Split(lines[q])) == Success(faceCount)
    && if Split(lines[q])[0] == "end_header" then dataStart == q + 1
       else && q + 1 < dataStart
            && lines[dataStart - 1] == "end_header"
            && forall j :: q < j < dataStart - 1 ==> lines[j] != "end_header"
  }

  /**
   * The header never ends: after the property run, which ends before line q,
   * line q is no "end_header" line and neither is any later line.
   */
  predicate NoHeaderEnd(lines: seq<string>, q: nat)
    requires q < |lines|
  {
    && Split(lines[q])[0] != "end_header"
    && forall j :: q < j < |lines| ==> lines[j] != "end_header"
  }

  /**
   * What the header says from its element line e on (lines 214-246): token 2
   * of line e is the vertex count, the first "property" line after it starts
   * the property run, and the header ends after that run as HeaderEnd says.
   */
  predicate ElementRead(lines: seq<string>, e: nat, h: Header)
    requires e < |lines|
  {
    && |Split(lines[e])| >= 3 && ParseInt32(Split(lines[e])[2]) == Some(h.vertexCount)
    && FindKeyword(lines, e + 1, "property").Some?
    && var p := FindKeyword(lines, e + 1, "property").value;
    && PropertyRun(lines, p, h.properties)
    && HeaderEnd(lines, p + |h.properties|, h.faceCount, h.dataStart)
  }

  /** From element line e on, a property run is read and then no line ends the header. */
  predicate ElementNeverEnds(lines: seq<string>, e: nat)
    requires e < |lines|
  {
    && FindKeyword(lines, e + 1, "property").Some?
    && var p := FindKeyword(lines, e + 1, "property").value;
    && ReadProperties(lines, p, []).Success?
    && PropertyRun(lines, p, ReadProperties(lines, p, []).value.0)
    && NoHeaderEnd(lines, ReadProperties(lines, p, []).value.1)
  }

  /** ParseHeader (lines 196-247) over the lines of the file: the format line, then the element line. */
  function ParseHeader(lines: seq<string>): (r: Result<Header, HeaderError>)
    ensures r.Success? ==> |lines| >= 2 && |Split(lines[1])| >= 2
    ensures r.Success? ==> (r.value.format == BinaryLittleEndian <==> Split(lines[1])[1] == "binary_little_endian")
    ensures r.Success? ==> (r.value.topology == Triangles <==> r.value.faceCount > 0)
    ensures r.Success? ==> |r.value.properties| >= 1 && DistinctNames(r.value.properties)
    ensures r.Success? ==> 3 < r.value.dataStart <= |lines|
    ensures r.Success? || r == Failure(NoEndHeader) ==> FindKeyword(lines, 2, "element").Some?
    ensures r.Success? ==> ElementRead(lines, FindKeyword(lines, 2, "element").value, r.value)
    ensures r == Failure(NoEndHeader) ==> ElementNeverEnds(lines, FindKeyword(lines, 2, "element").value)
  {
    if |lines| < 2 then Failure(MissingLine)
    else
      var t1 := Split(lines[1]);
      if |t1| < 2 then Failure(MissingToken)
      else
        match FindKeyword(lines, 2, "element")
        case None => Failure(MissingLine)
        case Some(e) => ParseElement(lines, FormatOf(t1[1]), e)
  }

  /**
   * A header whose property run is followed by a well-formed face line or
   * none, and then by no "end_header" line, is refused; the source loops
   * forever reading past the end of the file there (line 246).
   */
  lemma UnendedHeaderFails(lines: seq<string>)
    requires |lines| >= 2 && |Split(lines[1])| >= 2
    requires FindKeyword(lines, 2, "element").Some?
    requires var e := FindKeyword(lines, 2, "element").value;
      && |Split(lines[e])| >= 3 && ParseInt32(Split(lines[e])[2]).Some?
      && ElementNeverEnds(lines, e)
      && var p := FindKeyword(lines, e + 1, "property").value;
      && FaceCount(Split(lines[ReadProperties(lines, p, []).value.1])).Success?
    ensures ParseHeader(lines) == Failure(NoEndHeader)
  {
  }

  /** Lines 214-221: the vertex count from token 2 of the element line, then the first property line after it. */
  function ParseElement(lines: seq<string>, format: Format, e: nat): (r: Result<Header, HeaderError>)
    requires e < |lines|
    ensures r.Success? ==> r.value.format == format
    ensures r.Success? ==> ElementRead(lines, e, r.value)
    ensures r.Success? ==> (r.value.topology == Triangles <==> r.value.faceCount > 0)
    ensures r.Success? ==> DistinctNames(r.value.properties)
    ensures r == Failure(NoEndHeader) ==> ElementNeverEnds(lines, e)
  {
    var te := Split(lines[e]);
    if |te| < 3 then Failure(MissingToken)
    else
      match ParseInt32(te[2])
      case None => Failure(BadInteger)
      case Some(count) =>
        match FindKeyword(lines, e + 1, "property")
        case None => Failure(MissingLine)
        case Some(p) => ParseBody(lines, format, count, p)
  }

  /** Lines 218-246: the run of property lines, the optional face line, and the search for "end_header". */
  function ParseBody(lines: seq<string>, format: Format, count: int, p: nat): (r: Result<Header, HeaderError>)
    requires p < |lines|
    ensures r.Success? ==> r.value.format == format && r.value.vertexCount == count
    ensures r.Success? ==> PropertyRun(lines, p, r.value.properties)
    ensures r.Success? ==> HeaderEnd(lines, p + |r.value.properties|, r.value.faceCount, r.value.dataStart)
    ensures r.Success? ==> (r.value.topology == Triangles <==> r.value.faceCount > 0)
    ensures r.Success? ==> DistinctNames(r.value.properties)
    ensures r == Failure(NoEndHeader) <==>
      && ReadProperties(lines, p, []).Success?
      && var q := ReadProperties(lines, p, []).value.1;
      && FaceCount(Split(lines[q])).Success?
      && NoHeaderEnd(lines, q)
    ensures r == Failure(NoEndHeader) ==> PropertyRun(lines, p, ReadProperties(lines, p, []).value.0)
  {
    match ReadProperties(lines, p, [])
    case Failure(err) => Failure(err)
    case Success(read) =>
      var (props, next) := read;
      PropertiesSource(lines, p, props);
      var tn := Split(lines[next]);
      match FaceCount(tn)
      case Failure(err) => Failure(err)
      case Success(faces) =>
        var topology := if faces > 0 then Triangles else Points;
        var header := Header(format, count, props, topology, faces, 0);
        if tn[0] == "end_header" then Success(header.(dataStart := next + 1))
        else
          match FindEndHeader(lines, next + 1)
          case None => Failure(NoEndHeader)
          case Some(j) => Success(header.(dataStart := j + 1))
  }

  /**
   * The properties a header declares, read from line p on: one "property
   * <type> <name>" line per property, in order, ended by a line whose first
   * token is not "property".
   */
  predicate PropertyRun(lines: seq<string>, p: nat, props: seq<Property>) {
    && |props| >= 1
    && p + |props| < |lines|
    && (forall j :: p <= j < p + |props| ==>
          |Split(lines[j])| >= 3 && props[j - p] == Property(Split(lines[j])[2], Split(lines[j])[1]))
    && (forall j :: p < j < p + |props| ==> Split(lines[j])[0] == "property")
    && Split(lines[p + |props|])[0] != "property"
  }

  lemma PropertiesSource(lines: seq<string>, p: nat, props: seq<Property>)
    requires p < |lines| && ReadProperties(lines, p, []).Success? && props == ReadProperties(lines, p, []).value.0
    ensures PropertyRun(lines, p, props)
    ensures ReadProperties(lines, p, []).value.1 == p + |props|
  {
    ReadPropertiesRun(lines, p, []);
    var next := ReadProperties(lines, p, []).value.1;
    assert next == p + |props|;
  }

  /**
   * A run of well-formed property lines with distinct new names, ended by a
   * line that is not a property, is read as exactly those properties, in order.
   */
  lemma {:induction false} ReadPropertyRun(lines: seq<string>, i: nat, acc: seq<Property>, props: seq<Property>)
    requires |props| >= 1 && i + |props| < |lines|
    requires DistinctNames(acc + props)
    requires forall k :: 0 <= k < |props| ==> Split(lines[i + k]) == ["property", props[k].kind, props[k].name]
    requires Split(lines[i + |props|])[0] != "property"
    ensures DistinctNames(acc)
    ensures ReadProperties(lines, i, acc) == Success((acc + props, i + |props|))
    decreases |props|
  {
    assert acc == (acc + props)[..|acc|];
    assert Split(lines[i]) == ["property", props[0].kind, props[0].name];
    assert !HasName(acc, props[0].name) by {
      forall j | 0 <= j < |acc| ensures acc[j].name != props[0].name {
        assert (acc + props)[j] == acc[j] && (acc + props)[|acc|] == props[0];
      }
    }
    var acc' := acc + [props[0]];
    if |props| > 1 {
      assert Split(lines[i + 1]) == ["property", props[1].kind, props[1].name];
      assert acc' + props[1..] == acc + props;
      forall k | 0 <= k < |props[1..]|
        ensures Split(lines[i + 1 + k]) == ["property", props[1..][k].kind, props[1..][k].name]
      {
        assert Split(lines[i + (k + 1)]) == ["property", props[k + 1].kind, props[k + 1].name];
      }
      ReadPropertyRun(lines, i + 1, acc', props[1..]);
    } else {
      assert acc' == acc + props;
    }
  }

  // --------------------------------------------------- the header PlyWriter writes

  /** The properties CompleteHeader declares. */
  function WrittenProperties(): (r: seq<Property>)
    ensures |r| == 9
    ensures forall k :: 0 <= k < 9 ==> r[k] == Property(PlyWriter.WrittenNames[k], "float")
  {
    seq(9, k requires 0 <= k < 9 => Property(PlyWriter.WrittenNames[k], "float"))
  }

  /** Lines tokenised the way CompleteHeader's lines are, for a count n. */
  predicate WrittenHeaderShape(lines: seq<string>, n: int) {
    && |lines| == 13
    && Split(lines[1]) == ["format", "ascii", "1.0"]
    && Split(lines[2]) == ["element", "vertex", ShowInt(n)]
    && (forall k :: 0 <= k < 9 ==> Split(lines[3 + k]) == ["property", "float", PlyWriter.WrittenNames[k]])
    && Split(lines[12]) == ["end_header"]
  }

  /** The header the reader should recover from CompleteHeader(n). */
  function WrittenHeader(n: int): Header {
    Header(Ascii, n, WrittenProperties(), Points, 0, 13)
  }

  lemma WrittenNamesDistinct()
    ensures DistinctNames(WrittenProperties())
  {
    var names := PlyWriter.WrittenNames;
    assert forall a, b :: 0 <= a < b < 9 ==> names[a] != names[b];
  }

  lemma WrittenBody(lines: seq<string>, n: int)
    requires WrittenHeaderShape(lines, n)
    ensures ParseBody(lines, Ascii, n, 3) == Success(WrittenHeader(n))
  {
    var props := WrittenProperties();
    WrittenNamesDistinct();
    assert [] + props == props;
    forall k | 0 <= k < |props|
      ensures Split(lines[3 + k]) == ["property", props[k].kind, props[k].name]
    {
    }
    ReadPropertyRun(lines, 3, [], props);
    assert Split(lines[12])[0] == "end_header";
  }

  lemma WrittenElement(lines: seq<string>, n: int)
    requires Int32Min <= n <= Int32Max
    requires WrittenHeaderShape(lines, n)
    ensures ParseElement(lines, Ascii, 2) == Success(WrittenHeader(n))
  {
    ParseShowInt(n);
    assert Split(lines[3 + 0]) == ["property", "float", PlyWriter.WrittenNames[0]];
    assert FindKeyword(lines, 3, "property") == Some(3);
    WrittenBody(lines, n);
  }

  /** Any lines tokenised like CompleteHeader's parse to the written header. */
  lemma ParseWrittenShape(lines: seq<string>, n: int)
    requires Int32Min <= n <= Int32Max
    requires WrittenHeaderShape(lines, n)
    ensures ParseHeader(lines) == Success(WrittenHeader(n))
  {
    assert Split(lines[2])[0] == "element";
    assert FindKeyword(lines, 2, "element") == Some(2);
    assert FormatOf(Split(lines[1])[1]) == Ascii;
    WrittenElement(lines, n);
  }

  /**
   * Reading back the header PlyWriter writes gives an ascii point cloud of
   * the written size with the nine float properties in order, no faces, and
   * the data starting right after the thirteen header lines.
   */
  lemma ParseCompleteHeader(n: int)
    requires Int32Min <= n <= Int32Max
    ensures ParseHeader(PlyWriter.CompleteHeader(n)) == Success(Header(Ascii, n, WrittenProperties(), Points, 0, 13))
  {
    ParseWrittenShape(PlyWriter.CompleteHeader(n), n);
  }

  // ------------------------------------------------------------------ points

  /** Lines 76-78: a restriction other than -1 caps the number of points read. */
  function Restrict(total: int, restriction: int): (r: int)
    ensures r <= total
    ensures r == total || (restriction != -1 && r == restriction)
    ensures restriction != -1 ==> r <= restriction
  {
    if restriction != -1 && total > restriction then restriction else total
  }

  /** Restricting twice by the same bound is restricting once. */
  lemma RestrictIdempotent(total: int, restriction: int)
    ensures Restrict(Restrict(total, restriction), restriction) == Restrict(total, restriction)
  {
  }

  /** The index the header gave a property name (`m_plyProperties[name].Item1`), None for a name it did not declare. */
  function IndexOf(props: seq<Property>, name: string): (r: Option<nat>)
    ensures r.Some? ==> r.value < |props| && props[r.value].name == name
  {
    if |props| == 0 then None
    else if props[0].name == name then Some(0)
    else
      match IndexOf(props[1..], name)
      case None => None
      case Some(i) => Some(i + 1)
  }

  /** A name is found exactly when the header declares it, and then at its first declaration. */
  lemma {:induction false} IndexOfFinds(props: seq<Property>, name: string)
    ensures IndexOf(props, name).Some? <==> HasName(props, name)
    ensures IndexOf(props, name).Some? ==> forall j :: 0 <= j < IndexOf(props, name).value ==> props[j].name != name
  {
    if |props| > 0 && props[0].name != name {
      IndexOfFinds(props[1..], name);
      if HasName(props, name) {
        var i :| 0 <= i < |props| && props[i].name == name;
        assert props[1..][i - 1].name == name;
      }
      if IndexOf(props, name).Some? {
        forall j | 0 < j < IndexOf(props, name).value
          ensures props[j].name != name
        {
          assert props[j] == props[1..][j - 1];
        }
      }
    }
  }

  /** With distinct names, each property is found at its own index. */
  lemma IndexOfDistinct(props: seq<Property>, k: nat)
    requires k < |props| && DistinctNames(props)
    ensures IndexOf(props, props[k].name) == Some(k)
  {
    IndexOfFinds(props, props[k].name);
    assert HasName(props, props[k].name);
  }

  /** What reading a data line can throw: a name the header lacks, a token past the end, a token float.Parse rejects. */
  datatype ReadError = KeyNotFound | IndexOutOfRange | BadNumber

  /** A point as ReadPoint appends it: no position or colour when the header has none, a normal always. */
  datatype PointRecord = PointRecord(position: Option<Vec3>, normal: Vec3, color: Option<Color>)

  type Color = ColorUtils.Color

  /** The normal a point gets when its file has none, or a zero one (lines 269 and 331). */
  const DefaultNormal: Vec3 := Vec3(0.0, 0.0, 1.0)

  /**
   * One value of an ascii data line: the token at the index the header gave
   * the name, read by `number` (float.Parse after the decimal-separator swap).
   */
  function Field(props: seq<Property>, tokens: seq<string>, number: string -> Option<real>, name: string): (r: Result<real, ReadError>)
    ensures IndexOf(props, name).None? ==> r == Failure(KeyNotFound)
    ensures r.Success? ==>
      var i := IndexOf(props, name).value;
      i < |tokens| && number(tokens[i]) == Some(r.value)
  {
    match IndexOf(props, name)
    case None => Failure(KeyNotFound)
    case Some(i) =>
      if i >= |tokens| then Failure(IndexOutOfRange)
      else
        match number(tokens[i])
        case None => Failure(BadNumber)
        case Some(v) => Success(v)
  }

  /** Three named values read in order, as a vector; the first error wins. */
  function Triple(props: seq<Property>, tokens: seq<string>, number: string -> Option<real>, a: string, b: string, c: string): (r: Result<Vec3, ReadError>)
    ensures r.Success? ==>
      && Field(props, tokens, number, a) == Success(r.value.x)
      && Field(props, tokens, number, b) == Success(r.value.y)
      && Field(props, tokens, number, c) == Success(r.value.z)
  {
    var x :- Field(props, tokens, number, a);
    var y :- Field(props, tokens, number, b);
    var z :- Field(props, tokens, number, c);
    Success(Vec3(x, y, z))
  }

  /** Lines 277-278 and 284-285: colour values taken as they are, or as bytes divided by 255. */
  function AsColor(v: Vec3, floatAsUchar: bool): Color {
    if floatAsUchar then ColorUtils.Color(v.x / 255.0, v.y / 255.0, v.z / 255.0)
    else ColorUtils.Color(v.x, v.y, v.z)
  }

  /**
   * ReadPoint on an ascii line (lines 252-288): the position when the header
   * declares "x", the normal when it declares "nx" and (0, 0, 1) otherwise,
   * and the colour from r/g/b, else from red/green/blue, else none.
   */
  function AsciiPoint(props: seq<Property>, tokens: seq<string>, number: string -> Option<real>, floatAsUchar: bool): (r: Result<PointRecord, ReadError>)
    ensures r.Success? ==> (r.value.position.Some? <==> IndexOf(props, "x").Some?)
    ensures r.Success? && IndexOf(props, "nx").None? ==> r.value.normal == DefaultNormal
    ensures r.Success? ==> (r.value.color.Some? <==> IndexOf(props, "r").Some? || IndexOf(props, "red").Some?)
    ensures r.Success? && r.value.position.Some? ==> Triple(props, tokens, number, "x", "y", "z") == Success(r.value.position.value)
    ensures r.Success? && IndexOf(props, "nx").Some? ==> Triple(props, tokens, number, "nx", "ny", "nz") == Success(r.value.normal)
  {
    var position :-
      if IndexOf(props, "x").Some? then
        match Triple(props, tokens, number, "x", "y", "z")
        case Failure(e) => Failure(e)
        case Success(v) => Success(Some(v))
      else Success(None);
    var normal :-
      if IndexOf(props, "nx").Some? then Triple(props, tokens, number, "nx", "ny", "nz")
      else Success(DefaultNormal);
    var color :-
      if IndexOf(props, "r").Some? then
        match Triple(props, tokens, number, "r", "g", "b")
        case Failure(e) => Failure(e)
        case Success(v) => Success(Some(AsColor(v, floatAsUchar)))
      else if IndexOf(props, "red").Some? then
        match Triple(props, tokens, number, "red", "green", "blue")
        case Failure(e) => Failure(e)
        case Success(v) => Success(Some(AsColor(v, floatAsUchar)))
      else Success(None);
    Success(PointRecord(position, normal, color))
  }

  /** With distinct names, a property's value is the token at its own index. */
  lemma FieldAt(props: seq<Property>, tokens: seq<string>, number: string -> Option<real>, k: nat, v: real)
    requires k < |props| && DistinctNames(props)
    requires k < |tokens| && number(tokens[k]) == Some(v)
    ensures Field(props, tokens, number, props[k].name) == Success(v)
  {
    IndexOfDistinct(props, k);
  }

  /** Three consecutive properties read as the vector of their tokens. */
  lemma TripleAt(props: seq<Property>, tokens: seq<string>, number: string -> Option<real>, k: nat, v: Vec3)
    requires k + 2 < |props| && DistinctNames(props) && k + 2 < |tokens|
    requires number(tokens[k]) == Some(v.x) && number(tokens[k + 1]) == Some(v.y) && number(tokens[k + 2]) == Some(v.z)
    ensures Triple(props, tokens, number, props[k].name, props[k + 1].name, props[k + 2].name) == Success(v)
  {
    FieldAt(props, tokens, number, k, v.x);
    FieldAt(props, tokens, number, k + 1, v.y);
    FieldAt(props, tokens, number, k + 2, v.z);
  }

  /** Nine tokens holding position, normal and colour read, under the written header, as that point. */
  lemma ReadWrittenTokens(tokens: seq<string>, number: string -> Option<real>, position: Vec3, normal: Vec3, color: Color)
    requires |tokens| == 9
    requires number(tokens[0]) == Some(position.x) && number(tokens[1]) == Some(position.y) && number(tokens[2]) == Some(position.z)
    requires number(tokens[3]) == Some(normal.x) && number(tokens[4]) == Some(normal.y) && number(tokens[5]) == Some(normal.z)
    requires number(tokens[6]) == Some(color.r) && number(tokens[7]) == Some(color.g) && number(tokens[8]) == Some(color.b)
    ensures AsciiPoint(WrittenProperties(), tokens, number, false) == Success(PointRecord(Some(position), normal, Some(color)))
  {
    var props := WrittenProperties();
    WrittenNamesDistinct();
    WrittenIndexNames();
    TripleAt(props, tokens, number, 0, position);
    TripleAt(props, tokens, number, 3, normal);
    TripleAt(props, tokens, number, 6, Vec3(color.r, color.g, color.b));
    IndexOfDistinct(props, 0);
    IndexOfDistinct(props, 3);
    IndexOfDistinct(props, 6);
    AsciiPointOfTriples(props, tokens, number, position, normal, Vec3(color.r, color.g, color.b));
  }

  /** A header declaring x, nx and r reads all three triples, in plain float colour. */
  lemma AsciiPointOfTriples(props: seq<Property>, tokens: seq<string>, number: string -> Option<real>, position: Vec3, normal: Vec3, color: Vec3)
    requires IndexOf(props, "x").Some? && Triple(props, tokens, number, "x", "y", "z") == Success(position)
    requires IndexOf(props, "nx").Some? && Triple(props, tokens, number, "nx", "ny", "nz") == Success(normal)
    requires IndexOf(props, "r").Some? && Triple(props, tokens, number, "r", "g", "b") == Success(color)
    ensures AsciiPoint(props, tokens, number, false) == Success(PointRecord(Some(position), normal, Some(AsColor(color, false))))
  {
  }

  lemma WrittenIndexNames()
    ensures var props := WrittenProperties();
      && props[0].name == "x" && props[1].name == "y" && props[2].name == "z"
      && props[3].name == "nx" && props[4].name == "ny" && props[5].name == "nz"
      && props[6].name == "r" && props[7].name == "g" && props[8].name == "b"
  {
  }

  /**
   * A data line PlyWriter writes reads back, under the header it writes, as
   * the point it came from, when the number reader inverts the number
   * writer and written numbers contain no separator.
   */
  lemma ReadWrittenPoint(position: Vec3, normal: Vec3, color: Color, show: real -> string, number: string -> Option<real>)
    requires forall x :: number(show(x)) == Some(x)
    requires forall x :: NoSeparator(show(x))
    ensures AsciiPoint(WrittenProperties(), Split(PlyWriter.PointToLine(position, normal, color, show)), number, false)
      == Success(PointRecord(Some(position), normal, Some(color)))
  {
    var words := [show(position.x), show(position.y), show(position.z),
                  show(normal.x), show(normal.y), show(normal.z),
                  show(color.r), show(color.g), show(color.b)];
    SplitJoin(words);
    ReadWrittenTokens(words, number, position, normal, color);
  }

  // ------------------------------------------------------------ binary points

  /**
   * Lines 296-311: what one property contributes in a binary file, by its
   * type: float, uint and ushort values as read, a uchar byte divided by
   * 255, and 0 for any other type.
   */
  function BinaryValue(kind: string, raw: real): (v: real)
    ensures kind == "uchar" ==> v * 255.0 == raw
    ensures kind == "uchar" && 0.0 <= raw <= 255.0 ==> 0.0 <= v <= 1.0
    ensures kind != "float" && kind != "uint" && kind != "ushort" && kind != "uchar" ==> v == 0.0
  {
    if kind == "float" || kind == "uint" || kind == "ushort" then raw
    else if kind == "uchar" then raw / 255.0
    else 0.0
  }

  /** The nine values a binary point fills: position, normal and colour. */
  datatype Fields = Fields(position: Vec3, normal: Vec3, color: Color)

  /** Before the first property: position and normal zero, colour black (lines 291-293). */
  const Unset: Fields := Fields(Vec3(0.0, 0.0, 0.0), Vec3(0.0, 0.0, 0.0), ColorUtils.Black)

  /**
   * The value a property name sets (lines 313-326): slots 0-2 the position,
   * 3-5 the normal, 6-8 the colour, which "r" and "red" (and so on) share;
   * any other name sets nothing.
   */
  function Slot(name: string): (r: Option<nat>)
    ensures r.Some? ==> r.value < 9
  {
    if name == "x" then Some(0)
    else if name == "y" then Some(1)
    else if name == "z" then Some(2)
    else if name == "nx" then Some(3)
    else if name == "ny" then Some(4)
    else if name == "nz" then Some(5)
    else if name == "r" || name == "red" then Some(6)
    else if name == "g" || name == "green" then Some(7)
    else if name == "b" || name == "blue" then Some(8)
    else None
  }

  function Get(f: Fields, s: nat): real
    requires s < 9
  {
    match s
    case 0 => f.position.x
    case 1 => f.position.y
    case 2 => f.position.z
    case 3 => f.normal.x
    case 4 => f.normal.y
    case 5 => f.normal.z
    case 6 => f.color.r
    case 7 => f.color.g
    case _ => f.color.b
  }

  /** Slot s set to v, every other slot kept. */
  function Set(f: Fields, s: nat, v: real): (r: Fields)
    requires s < 9
    ensures Get(r, s) == v
    ensures forall t :: 0 <= t < 9 && t != s ==> Get(r, t) == Get(f, t)
  {
    match s
    case 0 => f.(position := f.position.(x := v))
    case 1 => f.(position := f.position.(y := v))
    case 2 => f.(position := f.position.(z := v))
    case 3 => f.(normal := f.normal.(x := v))
    case 4 => f.(normal := f.normal.(y := v))
    case 5 => f.(normal := f.normal.(z := v))
    case 6 => f.(color := f.color.(r := v))
    case 7 => f.(color := f.color.(g := v))
    case _ => f.(color := f.color.(b := v))
  }

  function Assign(f: Fields, name: string, v: real): Fields {
    match Slot(name)
    case None => f
    case Some(s) => Set(f, s, v)
  }

  /** The loop of lines 295-327, over the properties in header order, each with the raw value the stream holds for it. */
  function AssignAll(props: seq<Property>, raws: seq<real>, f: Fields): Fields
    requires |raws| == |props|
    decreases |props|
  {
    if |props| == 0 then f
    else AssignAll(props[1..], raws[1..], Assign(f, props[0].name, BinaryValue(props[0].kind, raws[0])))
  }

  /** ReadPoint on a binary record (lines 290-337): the assigned fields, with a zero normal replaced by (0, 0, 1). */
  function BinaryPoint(props: seq<Property>, raws: seq<real>): (r: PointRecord)
    requires |raws| == |props|
    ensures r.position.Some? && r.color.Some?
    ensures !r.normal.IsZero()
    ensures r.normal == AssignAll(props, raws, Unset).normal || AssignAll(props, raws, Unset).normal.IsZero()
  {
    var f := AssignAll(props, raws, Unset);
    PointRecord(Some(f.position), if f.normal.IsZero() then DefaultNormal else f.normal, Some(f.color))
  }

  /** No property naming a slot leaves that slot as it was. */
  lemma {:induction false} AssignAllUntouched(props: seq<Property>, raws: seq<real>, f: Fields, s: nat)
    requires |raws| == |props| && s < 9
    requires forall i :: 0 <= i < |props| ==> Slot(props[i].name) != Some(s)
    ensures Get(AssignAll(props, raws, f), s) == Get(f, s)
    decreases |props|
  {
    if |props| > 0 {
      var g := Assign(f, props[0].name, BinaryValue(props[0].kind, raws[0]));
      assert Slot(props[0].name) != Some(s);
      assert Get(g, s) == Get(f, s);
      assert forall i :: 0 <= i < |props[1..]| ==> props[1..][i] == props[i + 1];
      AssignAllUntouched(props[1..], raws[1..], g, s);
    }
  }

  /** The one property naming a slot sets it to its value. */
  lemma {:induction false} AssignAllSlot(props: seq<Property>, raws: seq<real>, f: Fields, s: nat, k: nat)
    requires |raws| == |props| && s < 9 && k < |props|
    requires Slot(props[k].name) == Some(s)
    requires forall i :: 0 <= i < |props| && i != k ==> Slot(props[i].name) != Some(s)
    ensures Get(AssignAll(props, raws, f), s) == BinaryValue(props[k].kind, raws[k])
    decreases |props|
  {
    var g := Assign(f, props[0].name, BinaryValue(props[0].kind, raws[0]));
    assert forall i :: 0 <= i < |props[1..]| ==> props[1..][i] == props[i + 1];
    if k == 0 {
      assert Get(g, s) == BinaryValue(props[0].kind, raws[0]);
      AssignAllUntouched(props[1..], raws[1..], g, s);
    } else {
      AssignAllSlot(props[1..], raws[1..], g, s, k - 1);
    }
  }

  /** A colour slot only ever receives uchar bytes. */
  predicate UcharColors(props: seq<Property>, raws: seq<real>)
    requires |raws| == |props|
  {
    forall i :: 0 <= i < |props| && Slot(props[i].name).Some? && Slot(props[i].name).value >= 6 ==>
      props[i].kind == "uchar" && 0.0 <= raws[i] <= 255.0
  }

  /** When every colour property is a uchar byte, the colour stays in the unit cube. */
  lemma {:induction false} AssignAllKeepsUnitColor(props: seq<Property>, raws: seq<real>, f: Fields)
    requires |raws| == |props| && UcharColors(props, raws) && ColorUtils.InUnitCube(f.color)
    ensures ColorUtils.InUnitCube(AssignAll(props, raws, f).color)
    decreases |props|
  {
    if |props| > 0 {
      var v := BinaryValue(props[0].kind, raws[0]);
      var g := Assign(f, props[0].name, v);
      if Slot(props[0].name).Some? && Slot(props[0].name).value >= 6 {
        assert 0.0 <= v <= 1.0;
      }
      assert ColorUtils.InUnitCube(g.color);
      assert forall i :: 0 <= i < |props[1..]| ==> props[1..][i] == props[i + 1] && raws[1..][i] == raws[i + 1];
      AssignAllKeepsUnitColor(props[1..], raws[1..], g);
    }
  }

  /** Lines 307-308: a binary point whose colour properties are all uchar has its colour in the unit cube. */
  lemma BinaryColorInUnitCube(props: seq<Property>, raws: seq<real>)
    requires |raws| == |props| && UcharColors(props, raws)
    ensures ColorUtils.InUnitCube(BinaryPoint(props, raws).color.value)
  {
    AssignAllKeepsUnitColor(props, raws, Unset);
  }

  /** Each written name sets the slot of its own index. */
  lemma WrittenSlots()
    ensures forall k :: 0 <= k < 9 ==> Slot(WrittenProperties()[k].name) == Some(k)
  {
    var names := PlyWriter.WrittenNames;
    assert Slot(names[0]) == Some(0) && Slot(names[1]) == Some(1) && Slot(names[2]) == Some(2);
    assert Slot(names[3]) == Some(3) && Slot(names[4]) == Some(4) && Slot(names[5]) == Some(5);
    assert Slot(names[6]) == Some(6) && Slot(names[7]) == Some(7) && Slot(names[8]) == Some(8);
  }

  /**
   * A binary record laid out as the nine float properties of the written
   * header gives back its values: position, colour, and the normal unless
   * it is zero.
   */
  lemma BinaryWrittenPoint(raws: seq<real>)
    requires |raws| == 9
    ensures var r := BinaryPoint(WrittenProperties(), raws); var n := Vec3(raws[3], raws[4], raws[5]);
      && r.position == Some(Vec3(raws[0], raws[1], raws[2]))
      && r.normal == (if n.IsZero() then DefaultNormal else n)
      && r.color == Some(ColorUtils.Color(raws[6], raws[7], raws[8]))
  {
    var props := WrittenProperties();
    WrittenSlots();
    forall s | 0 <= s < 9
      ensures Get(AssignAll(props, raws, Unset), s) == raws[s]
    {
      AssignAllSlot(props, raws, Unset, s, s);
    }
    var f := AssignAll(props, raws, Unset);
    assert Get(f, 0) == raws[0] && Get(f, 1) == raws[1] && Get(f, 2) == raws[2];
    assert Get(f, 3) == raws[3] && Get(f, 4) == raws[4] && Get(f, 5) == raws[5];
    assert Get(f, 6) == raws[6] && Get(f, 7) == raws[7] && Get(f, 8) == raws[8];
  }

  // ------------------------------------------------------------------ meshes

  /**
   * The split of the points into meshes (lines 97-126): point i at local
   * index i % 65535 of mesh i / 65535, every mesh but the last full, and
   * one mesh more than there are full ones, so a total that is a multiple
   * of 65535 leaves an empty last mesh.
   */
  predicate IsChunking<T(==)>(points: seq<T>, chunks: seq<seq<T>>) {
    && |chunks| == |points| / MaxPoints + 1
    && (forall c :: 0 <= c < |chunks| - 1 ==> |chunks[c]| == MaxPoints)
    && |chunks[|chunks| - 1]| == |points| % MaxPoints
    && (forall i :: 0 <= i < |points| ==>
          i / MaxPoints < |chunks| && i % MaxPoints < |chunks[i / MaxPoints]| && chunks[i / MaxPoints][i % MaxPoints] == points[i])
  }

  /** The loop of lines 99-126: each point goes to the current mesh, and a full mesh starts a new one. */
  method Chunk<T(==)>(points: seq<T>) returns (chunks: seq<seq<T>>)
    ensures IsChunking(points, chunks)
  {
    chunks := [[]];
    var index := 0;
    var i := 0;
    while i < |points|
      invariant 0 <= i <= |points|
      invariant |chunks| == i / MaxPoints + 1
      invariant index == i % MaxPoints && |chunks[|chunks| - 1]| == index
      invariant forall c :: 0 <= c < |chunks| - 1 ==> |chunks[c]| == MaxPoints
      invariant forall j :: 0 <= j < i ==>
        j / MaxPoints < |chunks| && j % MaxPoints < |chunks[j / MaxPoints]| && chunks[j / MaxPoints][j % MaxPoints] == points[j]
    {
      var last := |chunks| - 1;
      chunks := chunks[last := chunks[last] + [points[i]]];
      index := index + 1;
      if index >= MaxPoints {
        chunks := chunks + [[]];
        index := 0;
      }
      i := i + 1;
    }
  }

  /** Entry l of mesh c is point c * 65535 + l. */
  lemma ChunkEntry<T>(points: seq<T>, chunks: seq<seq<T>>, c: nat, l: nat)
    requires IsChunking(points, chunks)
    requires c < |chunks| && l < |chunks[c]|
    ensures c * MaxPoints + l < |points|
    ensures chunks[c][l] == points[c * MaxPoints + l]
  {
    var i := c * MaxPoints + l;
    if c < |chunks| - 1 {
      assert i < (|points| / MaxPoints) * MaxPoints;
    }
    assert i / MaxPoints == c && i % MaxPoints == l;
  }

  /** C#'s `/` by 65535 on an int index, which truncates toward zero (line 358). */
  function MeshOf(index: int): (c: int)
    ensures 0 <= index ==> 0 <= index - c * MaxPoints < MaxPoints
    ensures index < 0 ==> -MaxPoints < index - c * MaxPoints <= 0
  {
    if index >= 0 then index / MaxPoints else -((-index) / MaxPoints)
  }

  /** What ReadElem does with a face (lines 386-391). */
  datatype FaceOutcome =
    | Kept(mesh: nat, local: seq<int>)  // added to that mesh's triangles, made local to it
    | Dropped                           // its indices fall in different meshes
    | NoSuchMesh                        // m_pointClouds[idPC] is out of range and the source throws

  /** idPC of ReadElem: the mesh of the first index, or 0 for an empty face (lines 353, 357-358). */
  function FaceMesh(face: seq<int>): int {
    if |face| == 0 then 0 else MeshOf(face[0])
  }

  /**
   * ReadElem's assignment of a face to one of `meshes` meshes (lines
   * 357-392): a face whose indices share the mesh of the first is added to
   * that mesh with its indices made local, when that mesh exists; a face
   * spanning meshes is dropped without looking the mesh up.
   */
  function AssignFace(face: seq<int>, meshes: nat): (r: FaceOutcome)
    ensures r.Dropped? <==> !forall i :: 0 <= i < |face| ==> MeshOf(face[i]) == FaceMesh(face)
    ensures r.NoSuchMesh? <==>
      (forall i :: 0 <= i < |face| ==> MeshOf(face[i]) == FaceMesh(face)) && !(0 <= FaceMesh(face) < meshes)
    ensures r.Kept? ==> r.mesh == FaceMesh(face) && r.mesh < meshes
    ensures r.Kept? ==> |r.local| == |face|
    ensures r.Kept? ==> forall i :: 0 <= i < |face| ==> r.mesh * MaxPoints + r.local[i] == face[i]
  {
    var c := FaceMesh(face);
    if !forall i :: 0 <= i < |face| ==> MeshOf(face[i]) == c then Dropped
    else if !(0 <= c < meshes) then NoSuchMesh
    else Kept(c, seq(|face|, i requires 0 <= i < |face| => face[i] - c * MaxPoints))
  }

  /**
   * A face whose indices name points of the cloud never hits a missing mesh;
   * when kept, each local index names the same point in its mesh.
   */
  lemma KeptFaceKeepsPoints<T>(points: seq<T>, chunks: seq<seq<T>>, face: seq<int>)
    requires IsChunking(points, chunks)
    requires forall i :: 0 <= i < |face| ==> 0 <= face[i] < |points|
    ensures !AssignFace(face, |chunks|).NoSuchMesh?
    ensures AssignFace(face, |chunks|).Kept? ==>
      var (c, local) := (AssignFace(face, |chunks|).mesh, AssignFace(face, |chunks|).local);
      forall i :: 0 <= i < |face| ==> 0 <= local[i] < |chunks[c]| && chunks[c][local[i]] == points[face[i]]
  {
    var c := FaceMesh(face);
    if |face| > 0 {
      var j := face[0];
      assert 0 <= c * MaxPoints <= j;
      assert c <= j / MaxPoints;
    }
    var r := AssignFace(face, |chunks|);
    if r.Kept? {
      forall i | 0 <= i < |face|
        ensures 0 <= r.local[i] < |chunks[c]| && chunks[c][r.local[i]] == points[face[i]]
      {
        var j := face[i];
        assert c * MaxPoints + r.local[i] == j;
        assert 0 <= r.local[i] < MaxPoints;
        assert j / MaxPoints == c && j % MaxPoints == r.local[i];
      }
    }
  }

  /** A face with a negative index and no other is looked up in a mesh that does not exist. */
  lemma NegativeFaceHasNoMesh(meshes: nat)
    ensures AssignFace([-MaxPoints], meshes) == NoSuchMesh
  {
    assert MeshOf(-MaxPoints) == -1;
  }

  /** Lines 354-365: indices k.. of a face, `parse` (int.Parse) of tokens k + 1.., until n of them are read. */
  function FaceIndices(tokens: seq<string>, k: nat, n: nat, parse: string -> Option<int>): (r: Result<seq<int>, ReadError>)
    ensures r.Success? ==> |r.value| == if k <= n then n - k else 0
    decreases n - k
  {
    if k >= n then Success([])
    else if k + 1 >= |tokens| then Failure(IndexOutOfRange)
    else
      match parse(tokens[k + 1])
      case None => Failure(BadNumber)
      case Some(v) =>
        match FaceIndices(tokens, k + 1, n, parse)
        case Failure(e) => Failure(e)
        case Success(rest) => Success([v] + rest)
  }

  /** Every index read is the parse of its own token, one token after its position. */
  lemma {:induction false} FaceIndicesParsed(tokens: seq<string>, k: nat, n: nat, parse: string -> Option<int>)
    requires FaceIndices(tokens, k, n, parse).Success?
    ensures var xs := FaceIndices(tokens, k, n, parse).value;
      k + |xs| < |tokens| || |xs| == 0
    ensures var xs := FaceIndices(tokens, k, n, parse).value;
      forall j :: k < j <= k + |xs| ==> parse(tokens[j]) == Some(xs[j - k - 1])
    decreases n - k
  {
    if k < n {
      var xs := FaceIndices(tokens, k, n, parse).value;
      var rest := FaceIndices(tokens, k + 1, n, parse).value;
      FaceIndicesParsed(tokens, k + 1, n, parse);
      assert xs == [xs[0]] + rest;
      forall j | k < j <= k + |xs|
        ensures parse(tokens[j]) == Some(xs[j - k - 1])
      {
        if j > k + 1 {
          assert xs[j - k - 1] == rest[j - (k + 1) - 1];
        }
      }
    }
  }

  /** ReadElem on an ascii line (lines 351-365): uint.Parse of the count, then that many indices. */
  function ReadFaceLine(tokens: seq<string>): (r: Result<seq<int>, ReadError>)
    requires |tokens| >= 1
    ensures r.Success? ==> ParseUInt32(tokens[0]) == Some(|r.value|)
    ensures r.Success? ==> |r.value| < |tokens|
    ensures r.Success? ==> forall j :: 0 < j <= |r.value| ==> ParseInt32(tokens[j]) == Some(r.value[j - 1])
  {
    match ParseUInt32(tokens[0])
    case None => Failure(BadNumber)
    case Some(n) =>
      var r := FaceIndices(tokens, 0, n, ParseInt32);
      if r.Success? then FaceIndicesParsed(tokens, 0, n, ParseInt32); r else r
  }

  /** A face line as the PLY format lays it out: the index count, then the indices. */
  function FaceWords(face: seq<int>): (r: seq<string>)
    ensures |r| == |face| + 1
  {
    [ShowInt(|face|)] + seq(|face|, i requires 0 <= i < |face| => ShowInt(face[i]))
  }

  /** Tokens 1.. that parse to the entries of xs are read, from entry k on, as those entries. */
  lemma {:induction false} FaceIndicesOfParsed(tokens: seq<string>, xs: seq<int>, k: nat, parse: string -> Option<int>)
    requires k <= |xs| && |xs| < |tokens|
    requires forall j :: 0 < j <= |xs| ==> parse(tokens[j]) == Some(xs[j - 1])
    ensures FaceIndices(tokens, k, |xs|, parse) == Success(xs[k..])
    decreases |xs| - k
  {
    if k < |xs| {
      FaceIndicesOfParsed(tokens, xs, k + 1, parse);
      assert parse(tokens[k + 1]) == Some(xs[k]);
      assert FaceIndices(tokens, k, |xs|, parse) == Success([xs[k]] + xs[k + 1..]);
      assert xs[k..] == [xs[k]] + xs[k + 1..];
    }
  }

  /** Reading a face line gives back the face it lays out. */
  lemma ReadFaceLineRoundTrip(face: seq<int>)
    requires |face| <= UInt32Max
    requires forall i :: 0 <= i < |face| ==> Int32Min <= face[i] <= Int32Max
    ensures ReadFaceLine(Split(Join(FaceWords(face)))) == Success(face)
  {
    var words := FaceWords(face);
    forall i | 0 <= i < |words|
      ensures NoSeparator(words[i])
    {
      if i == 0 {
        PlyWriter.ShowIntHasNoSeparator(|face|);
      } else {
        PlyWriter.ShowIntHasNoSeparator(face[i - 1]);
      }
    }
    SplitJoin(words);
    ParseShowNat(|face|);
    forall j | 0 < j <= |face|
      ensures ParseInt32(words[j]) == Some(face[j - 1])
    {
      ParseShowInt(face[j - 1]);
    }
    FaceIndicesOfParsed(words, face, 0, ParseInt32);
    assert face[0..] == face;
  }
}
