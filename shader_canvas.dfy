/**
 * The data sanitisation the shader canvas performs on a shader payload before
 * it makes any graphics call: the mandatory-field check, vertex padding to
 * whole (x, y, z) triples, index filtering, cleaning of the shader sources,
 * and the choice of primitive topology and element count for the draw call.
 */
module ShaderCanvas {
  import opened Wrappers
  import opened JsString

  /**
   * One vertex component as found in the payload. `None` stands for the
   * falsy non-number values the model admits there (undefined, null, NaN);
   * `Some(0.0)` is falsy too, and both become 0.
   */
  type Component = Option<real>

  /** The fields of a shader payload the canvas reads; each may be absent. */
  datatype Payload = Payload(
    vertexShaderCode: Option<string>,
    fragmentShaderCode: Option<string>,
    vertices: Option<seq<Component>>,
    indices: Option<seq<int>>,
    drawMode: Option<string>)

  const IncompleteMessage := "Shader data is incomplete."

  /** A JavaScript string is truthy when it is present and not empty. */
  predicate Truthy(s: Option<string>)
  {
    s.Some? && s.value != []
  }

  /**
   * The mandatory-field check: both shader sources non-empty, vertices and
   * indices present. Arrays are always truthy, so empty arrays pass.
   */
  predicate Complete(p: Payload)
  {
    Truthy(p.vertexShaderCode) && Truthy(p.fragmentShaderCode) && p.vertices.Some? && p.indices.Some?
  }

  // ---------------------------------------------------------------------
  // Vertex padding
  // ---------------------------------------------------------------------

  /** `vertices[k] || 0`: the component when present and truthy, else 0 (also past the end). */
  function ComponentOrZero(vertices: seq<Component>, k: int): real
  {
    if 0 <= k < |vertices| then (match vertices[k] case Some(x) => x case None => 0.0) else 0.0
  }

  /** The padded vertex list: whole triples covering every input component. */
  function Padded(vertices: seq<Component>): seq<real>
  {
    seq(3 * ((|vertices| + 2) / 3), k => ComponentOrZero(vertices, k))
  }

  /** Rebuilds the vertex list triple by triple, as the source's loop does. */
  method PadVertices(vertices: seq<Component>) returns (padded: seq<real>)
    ensures padded == Padded(vertices)
  {
    padded := [];
    var i := 0;
    while i < |vertices|
      invariant i % 3 == 0 && i <= |Padded(vertices)|
      invariant padded == Padded(vertices)[..i]
    {
      padded := padded + [ComponentOrZero(vertices, i), ComponentOrZero(vertices, i + 1), ComponentOrZero(vertices, i + 2)];
      i := i + 3;
    }
  }

  /**
   * The padded length is the least multiple of 3 that is at least the input
   * length; present components are kept, missing or falsy ones and the
   * padding are 0.
   */
  lemma PaddedShape(vertices: seq<Component>)
    ensures |Padded(vertices)| % 3 == 0
    ensures |vertices| <= |Padded(vertices)| < |vertices| + 3
    ensures forall k :: 0 <= k < |vertices| && vertices[k].Some? ==> Padded(vertices)[k] == vertices[k].value
    ensures forall k :: 0 <= k < |vertices| && vertices[k].None? ==> Padded(vertices)[k] == 0.0
    ensures forall k :: |vertices| <= k < |Padded(vertices)| ==> Padded(vertices)[k] == 0.0
  {
  }

  /** A list of numbers seen as payload components (every entry present). */
  function AsComponents(numbers: seq<real>): (c: seq<Component>)
    ensures |c| == |numbers| && forall k :: 0 <= k < |c| ==> c[k] == Some(numbers[k])
  {
    seq(|numbers|, k requires 0 <= k < |numbers| => Some(numbers[k]))
  }

  /** Padding an already padded list gives it back unchanged, length included. */
  lemma PaddedIdempotent(vertices: seq<Component>)
    ensures Padded(AsComponents(Padded(vertices))) == Padded(vertices)
  {
    var p := Padded(vertices);
    PaddedShape(vertices);
    var q := Padded(AsComponents(p));
    assert |q| == |p|;
    forall k | 0 <= k < |p| ensures q[k] == p[k] {
      assert AsComponents(p)[k] == Some(p[k]);
    }
  }

  // ---------------------------------------------------------------------
  // Index filtering
  // ---------------------------------------------------------------------

  /**
   * `index <= vertices.length / 3 - 1` over exact rationals. The canvas only
   * calls it with a padded length, a multiple of 3, for which JavaScript's
   * floating-point quotient is exact too.
   */
  predicate WithinMaxIndex(index: int, vertexCount: nat)
  {
    (index as real) <= (vertexCount as real) / 3.0 - 1.0
  }

  /** An index survives exactly when it addresses a complete triple (or is negative). */
  lemma WithinMaxIndexIff(index: int, vertexCount: nat)
    ensures WithinMaxIndex(index, vertexCount) <==> 3 * (index + 1) <= vertexCount
    ensures WithinMaxIndex(index, vertexCount) <==> index < vertexCount / 3
  {
    var q := vertexCount / 3;
    assert vertexCount == 3 * q + vertexCount % 3;
  }

  /**
   * `indices.filter(index => index <= maxIndex)`: the indices within the
   * maximum, in their original order.
   */
  function ValidateIndices(indices: seq<int>, vertices: seq<real>): (kept: seq<int>)
    ensures |kept| <= |indices|
    ensures forall k :: 0 <= k < |kept| ==> WithinMaxIndex(kept[k], |vertices|)
    ensures forall x :: multiset(kept)[x] == if WithinMaxIndex(x, |vertices|) then multiset(indices)[x] else 0
  {
    if indices == [] then []
    else
      var rest := ValidateIndices(indices[1..], vertices);
      assert indices == [indices[0]] + indices[1..];
      if WithinMaxIndex(indices[0], |vertices|) then [indices[0]] + rest else rest
  }

  /** Filtering commutes with concatenation, so the original order is kept. */
  lemma {:induction false} ValidateIndicesAppend(a: seq<int>, b: seq<int>, vertices: seq<real>)
    ensures ValidateIndices(a + b, vertices) == ValidateIndices(a, vertices) + ValidateIndices(b, vertices)
  {
    if a == [] {
      assert a + b == b;
    } else {
      assert (a + b)[0] == a[0] && (a + b)[1..] == a[1..] + b;
      ValidateIndicesAppend(a[1..], b, vertices);
    }
  }

  /**
   * Every kept index satisfies 3 * (i + 1) <= |vertices|, so each non-negative
   * kept index addresses a complete (x, y, z) triple; negative indices pass.
   */
  lemma KeptIndicesAddressTriples(indices: seq<int>, vertices: seq<real>)
    ensures forall k :: 0 <= k < |ValidateIndices(indices, vertices)| ==>
              3 * (ValidateIndices(indices, vertices)[k] + 1) <= |vertices|
  {
    var kept := ValidateIndices(indices, vertices);
    forall k | 0 <= k < |kept| ensures 3 * (kept[k] + 1) <= |vertices| {
      WithinMaxIndexIff(kept[k], |vertices|);
    }
  }

  /** The filter has an upper bound only: every negative index survives. */
  lemma NegativeIndicesSurvive(indices: seq<int>, vertices: seq<real>)
    ensures forall k :: 0 <= k < |indices| && indices[k] < 0 ==> indices[k] in ValidateIndices(indices, vertices)
  {
    forall k | 0 <= k < |indices| && indices[k] < 0
      ensures indices[k] in ValidateIndices(indices, vertices)
    {
      assert indices[k] in multiset(indices);
      WithinMaxIndexIff(indices[k], |vertices|);
    }
  }

  /** With no vertices every index from 0 upward is dropped and only negative ones remain. */
  lemma EmptyVerticesKeepOnlyNegative(indices: seq<int>)
    ensures forall k :: 0 <= k < |ValidateIndices(indices, [])| ==> ValidateIndices(indices, [])[k] < 0
  {
    var kept := ValidateIndices(indices, []);
    forall k | 0 <= k < |kept| ensures kept[k] < 0 {
      WithinMaxIndexIff(kept[k], 0);
    }
  }

  // ---------------------------------------------------------------------
  // Shader source cleaning: `source.replace(/#version\s+\d+/g, "").trim()`
  // ---------------------------------------------------------------------

  const VersionKeyword := "#version"

  /** Length of the longest whitespace prefix. */
  function SpaceRun(s: string): (n: nat)
    ensures n <= |s| && AllSpace(s[..n]) && (n == |s| || !IsSpace(s[n]))
  {
    if s != [] && IsSpace(s[0]) then
      var n := 1 + SpaceRun(s[1..]);
      assert s[..n] == [s[0]] + s[1..][..n - 1];
      n
    else 0
  }

  /** Length of the longest digit prefix. */
  function DigitRun(s: string): (n: nat)
    ensures n <= |s| && AllDigits(s[..n]) && (n == |s| || !IsDigit(s[n]))
  {
    if s != [] && IsDigit(s[0]) then 1 + DigitRun(s[1..]) else 0
  }

  /**
   * Length of the match of `#version\s+\d+` at the start of `s` (both runs
   * greedy), or 0 when the pattern does not match there.
   */
  function DirectiveLength(s: string): (n: nat)
    ensures n <= |s|
    ensures n > 0 ==> n >= |VersionKeyword| + 2 && s[..|VersionKeyword|] == VersionKeyword
    ensures n > 0 ==> IsSpace(s[|VersionKeyword|]) && IsDigit(s[n - 1])
  {
    var k := |VersionKeyword|;
    if |s| < k || s[..k] != VersionKeyword then 0
    else
      var w := SpaceRun(s[k..]);
      if w == 0 then 0
      else
        var d := DigitRun(s[k + w..]);
        if d == 0 then 0 else k + w + d
  }

  /** Every character of `t` is a digit. */
  predicate AllDigits(t: string)
  {
    forall k :: 0 <= k < |t| ==> IsDigit(t[k])
  }

  /** A slice of `s` is a prefix of the suffix where it starts. */
  lemma SliceOfSuffix(s: string, a: nat, b: nat)
    requires a <= b <= |s|
    ensures s[a..b] == s[a..][..b - a]
  {
  }

  /**
   * A reported match is exactly `#version`, a non-empty whitespace block, and
   * the longest digit block after it: the match is neither longer nor
   * shorter than the pattern allows.
   */
  lemma DirectiveLengthSound(s: string)
    ensures var n := DirectiveLength(s);
            n > 0 ==> exists j :: |VersionKeyword| < j < n && AllSpace(s[|VersionKeyword|..j]) &&
                                  AllDigits(s[j..n]) && (n == |s| || !IsDigit(s[n]))
  {
    var n := DirectiveLength(s);
    var k := |VersionKeyword|;
    if n > 0 {
      assert k <= |s|;
      var w := SpaceRun(s[k..]);
      var j := k + w;
      SliceOfSuffix(s, k, j);
      var d := DigitRun(s[j..]);
      assert n == j + d;
      SliceOfSuffix(s, j, n);
      assert n < |s| ==> s[n] == s[j..][d];
      assert k < j < n && AllSpace(s[k..j]) && AllDigits(s[j..n]) && (n == |s| || !IsDigit(s[n]));
    }
  }

  /** No match of the directive pattern starts anywhere in `s`. */
  predicate NoDirective(s: string)
  {
    forall i :: 0 <= i <= |s| ==> DirectiveLength(s[i..]) == 0
  }

  /**
   * A global replace of the directive pattern by the empty string: scanning
   * left to right, each match is removed and the scan resumes after it.
   */
  function StripVersion(s: string): (r: string)
    ensures |r| <= |s|
    ensures multiset(r) <= multiset(s)
    decreases |s|
  {
    if s == [] then []
    else
      var m := DirectiveLength(s);
      assert s == s[..m] + s[m..] && s == [s[0]] + s[1..];
      if m > 0 then StripVersion(s[m..]) else [s[0]] + StripVersion(s[1..])
  }

  /** A match at the start is dropped as a whole and the scan resumes after it. */
  lemma StripAtDirective(s: string)
    requires DirectiveLength(s) > 0
    ensures StripVersion(s) == StripVersion(s[DirectiveLength(s)..])
  {
  }

  /** Where no match starts, the scan copies one character and moves on. */
  lemma StripNoMatchHere(t: string)
    requires t != [] && DirectiveLength(t) == 0
    ensures StripVersion(t) == [t[0]] + StripVersion(t[1..])
  {
  }

  /** Moving one character from the rest onto the copied prefix. */
  lemma PrefixExtend(t: string, m: nat, rest: string)
    requires 0 < m <= |t|
    ensures t[..m - 1] + ([t[m - 1]] + rest) == t[..m] + rest
  {
    assert t[..m - 1] + [t[m - 1]] == t[..m];
  }

  /**
   * A stretch of text at which no match starts is copied through, in
   * order, ahead of whatever the scan makes of the rest.
   */
  lemma {:induction false} StripKeepsUnmatched(t: string, m: nat)
    requires m <= |t|
    requires forall i :: 0 <= i < m ==> DirectiveLength(t[i..]) == 0
    ensures StripVersion(t) == t[..m] + StripVersion(t[m..])
  {
    if m == 0 {
      assert t[..0] == [] && t[0..] == t;
    } else {
      StripKeepsUnmatched(t, m - 1);
      var u := t[m - 1..];
      StripNoMatchHere(u);
      assert u[1..] == t[m..];
      PrefixExtend(t, m, StripVersion(t[m..]));
    }
  }

  /** Text without the directive comes through the replace unchanged. */
  lemma {:induction false} StripWithoutDirective(s: string)
    requires NoDirective(s)
    ensures StripVersion(s) == s
    decreases |s|
  {
    if s != [] {
      assert DirectiveLength(s[0..]) == 0 && s[0..] == s;
      assert NoDirective(s[1..]) by {
        forall i | 0 <= i <= |s[1..]| ensures DirectiveLength(s[1..][i..]) == 0 {
          assert s[1..][i..] == s[i + 1..];
        }
      }
      StripWithoutDirective(s[1..]);
      assert s == [s[0]] + s[1..];
    }
  }

  /** The source text handed to the shader compiler. */
  function CleanSource(source: string): (clean: string)
    ensures Trimmed(clean)
    ensures |clean| <= |source|
  {
    Trim(StripVersion(source))
  }

  /** A source containing no directive is changed only by trimming. */
  lemma CleanWithoutDirective(source: string)
    requires NoDirective(source)
    ensures CleanSource(source) == Trim(source)
  {
    StripWithoutDirective(source);
  }

  /** Text without a '#' holds no directive, so cleaning it only trims it. */
  lemma CleanWithoutHash(source: string)
    requires '#' !in source
    ensures NoDirective(source)
    ensures CleanSource(source) == Trim(source)
  {
    forall i | 0 <= i <= |source| ensures DirectiveLength(source[i..]) == 0 {
      if |source[i..]| >= |VersionKeyword| {
        assert source[i..][..|VersionKeyword|][0] == source[i] != VersionKeyword[0];
      }
    }
    CleanWithoutDirective(source);
  }

  /** SpaceRun measures exactly a whitespace block followed by a non-space. */
  lemma {:induction false} SpaceRunOf(w: string, t: string)
    requires AllSpace(w) && (t == [] || !IsSpace(t[0]))
    ensures SpaceRun(w + t) == |w|
  {
    if w != [] {
      assert (w + t)[1..] == w[1..] + t;
      SpaceRunOf(w[1..], t);
    }
  }

  /** DigitRun measures exactly a digit block followed by a non-digit. */
  lemma {:induction false} DigitRunOf(d: string, t: string)
    requires AllDigits(d) && (t == [] || !IsDigit(t[0]))
    ensures DigitRun(d + t) == |d|
  {
    if d != [] {
      assert (d + t)[1..] == d[1..] + t;
      DigitRunOf(d[1..], t);
    }
  }

  /** `#version`, whitespace and a number form one match, ending where the number ends. */
  lemma DirectiveLengthOf(w: string, digits: string, rest: string)
    requires w != [] && AllSpace(w)
    requires digits != [] && AllDigits(digits)
    requires rest == [] || !IsDigit(rest[0])
    ensures DirectiveLength(VersionKeyword + w + digits + rest) == |VersionKeyword| + |w| + |digits|
  {
    var s := VersionKeyword + w + digits + rest;
    var k := |VersionKeyword|;
    assert s[..k] == VersionKeyword;
    assert s[k..] == w + (digits + rest);
    SpaceRunOf(w, digits + rest);
    assert s[k + |w|..] == digits + rest;
    DigitRunOf(digits, rest);
  }

  /**
   * A leading `#version`, whitespace and a version number are removed as one
   * match, and the scan resumes on whatever follows the number (a line
   * break, or the `es` of `#version 300 es`).
   */
  lemma StripLeadingDirective(w: string, digits: string, rest: string)
    requires w != [] && AllSpace(w)
    requires digits != [] && AllDigits(digits)
    requires rest == [] || !IsDigit(rest[0])
    ensures StripVersion(VersionKeyword + w + digits + rest) == StripVersion(rest)
  {
    var s := VersionKeyword + w + digits + rest;
    DirectiveLengthOf(w, digits, rest);
    StripAtDirective(s);
    assert s[|VersionKeyword| + |w| + |digits|..] == rest;
  }

  // ---------------------------------------------------------------------
  // Draw mode and draw call
  // ---------------------------------------------------------------------

  /** The primitive topologies of WebGL 1.0. */
  datatype Topology = Points | Lines | LineLoop | LineStrip | Triangles | TriangleStrip | TriangleFan

  /** The numeric value of each topology constant in WebGL 1.0 (section 5.14 of the WebGL 1.0 specification). */
  function GlConstant(t: Topology): int
  {
    match t
    case Points => 0x0000
    case Lines => 0x0001
    case LineLoop => 0x0002
    case LineStrip => 0x0003
    case Triangles => 0x0004
    case TriangleStrip => 0x0005
    case TriangleFan => 0x0006
  }

  /** The property name under which the rendering context exposes each constant. */
  function TokenName(t: Topology): string
  {
    match t
    case Points => "POINTS"
    case Lines => "LINES"
    case LineLoop => "LINE_LOOP"
    case LineStrip => "LINE_STRIP"
    case Triangles => "TRIANGLES"
    case TriangleStrip => "TRIANGLE_STRIP"
    case TriangleFan => "TRIANGLE_FAN"
  }

  /** `gl[token]` restricted to the topology constants: the topology whose name is `token`. */
  function TopologyNamed(token: string): (t: Option<Topology>)
    ensures t.Some? ==> TokenName(t.value) == token
  {
    if token == "POINTS" then Some(Points)
    else if token == "LINES" then Some(Lines)
    else if token == "LINE_LOOP" then Some(LineLoop)
    else if token == "LINE_STRIP" then Some(LineStrip)
    else if token == "TRIANGLES" then Some(Triangles)
    else if token == "TRIANGLE_STRIP" then Some(TriangleStrip)
    else if token == "TRIANGLE_FAN" then Some(TriangleFan)
    else None
  }

  /** Every topology is found again under its own name. */
  lemma TopologyNamedRoundTrip(t: Topology)
    ensures TopologyNamed(TokenName(t)) == Some(t)
  {
  }

  /**
   * `gl[drawMode] || gl.TRIANGLES`: the named topology when its constant is
   * truthy (non-zero), TRIANGLES otherwise.
   */
  function DrawMode(drawMode: Option<string>): (t: Topology)
    ensures GlConstant(t) != 0
    ensures t == Triangles || (drawMode.Some? && TopologyNamed(drawMode.value) == Some(t))
  {
    match drawMode
    case None => Triangles
    case Some(token) =>
      match TopologyNamed(token)
      case Some(named) => if GlConstant(named) != 0 then named else Triangles
      case None => Triangles
  }

  /** The fallback: every named topology is used except POINTS, whose constant is 0. */
  lemma DrawModeFallback(t: Topology, token: string)
    ensures DrawMode(Some(TokenName(t))) == if t == Points then Triangles else t
    ensures TopologyNamed(token).None? ==> DrawMode(Some(token)) == Triangles
    ensures DrawMode(None) == Triangles
  {
    TopologyNamedRoundTrip(t);
  }

  /** Everything the canvas hands to the graphics pipeline. */
  datatype DrawCall = DrawCall(
    vertexSource: string,
    fragmentSource: string,
    vertices: seq<real>,
    indices: seq<int>,
    mode: Topology,
    count: nat)

  /** Sanitise-then-draw: the incomplete-data error, or what the draw is made from. */
  function Sanitise(p: Payload): (r: Result<DrawCall, string>)
    ensures r.Failure? <==> !Complete(p)
    ensures r.Failure? ==> r.error == IncompleteMessage
    ensures r.Success? ==> |r.value.vertices| % 3 == 0 && r.value.count == |r.value.indices|
    ensures r.Success? ==> forall k :: 0 <= k < |r.value.indices| ==> 3 * (r.value.indices[k] + 1) <= |r.value.vertices|
    ensures r.Success? ==> Trimmed(r.value.vertexSource) && Trimmed(r.value.fragmentSource)
    ensures r.Success? ==> GlConstant(r.value.mode) != 0
    ensures r.Success? ==> r.value.vertices == Padded(p.vertices.value)
    ensures r.Success? ==> r.value.indices == ValidateIndices(p.indices.value, r.value.vertices)
    ensures r.Success? ==> r.value.vertexSource == CleanSource(p.vertexShaderCode.value)
    ensures r.Success? ==> r.value.fragmentSource == CleanSource(p.fragmentShaderCode.value)
    ensures r.Success? ==> r.value.mode == DrawMode(p.drawMode)
  {
    if !Complete(p) then Failure(IncompleteMessage)
    else
      var vertices := Padded(p.vertices.value);
      var indices := ValidateIndices(p.indices.value, vertices);
      PaddedShape(p.vertices.value);
      KeptIndicesAddressTriples(p.indices.value, vertices);
      Success(DrawCall(
        CleanSource(p.vertexShaderCode.value),
        CleanSource(p.fragmentShaderCode.value),
        vertices, indices, DrawMode(p.drawMode), |indices|))
  }

  /**
   * In terms of the raw payload: an index x survives exactly when
   * 3 * (x + 1) <= 3 * ceil(n/3), the padded length (so a non-negative one
   * names a triple of the padded list, and every negative one survives), as
   * often as it occurs in the input, and in the input's order.
   */
  lemma SanitisedIndicesFromRaw(p: Payload, a: seq<int>, b: seq<int>)
    requires Complete(p) && p.indices == Some(a + b)
    ensures var n := |p.vertices.value|;
            forall x :: multiset(Sanitise(p).value.indices)[x] ==
                        if 3 * (x + 1) <= 3 * ((n + 2) / 3) then multiset(a + b)[x] else 0
    ensures Sanitise(p).value.indices == ValidateIndices(a, Padded(p.vertices.value)) + ValidateIndices(b, Padded(p.vertices.value))
  {
    var padded := Padded(p.vertices.value);
    forall x ensures WithinMaxIndex(x, |padded|) <==> 3 * (x + 1) <= 3 * ((|p.vertices.value| + 2) / 3) {
      WithinMaxIndexIff(x, |padded|);
    }
    ValidateIndicesAppend(a, b, padded);
  }

  /** The canvas effect's sanitisation, computing its values one step after another as the source does. */
  method PrepareDraw(p: Payload) returns (r: Result<DrawCall, string>)
    ensures r == Sanitise(p)
  {
    if !Complete(p) {
      return Failure(IncompleteMessage);
    }
    var vertices := PadVertices(p.vertices.value);
    var indices := ValidateIndices(p.indices.value, vertices);
    var vertexSource := CleanSource(p.vertexShaderCode.value);
    var fragmentSource := CleanSource(p.fragmentShaderCode.value);
    r := Success(DrawCall(vertexSource, fragmentSource, vertices, indices, DrawMode(p.drawMode), |indices|));
  }

  // ---------------------------------------------------------------------
  // Worked cases
  // ---------------------------------------------------------------------

  /** Two whole vertices pad to themselves. */
  lemma TwoVerticesPadded()
    ensures Padded([Some(0.0), Some(0.0), Some(0.0), Some(1.0), Some(0.0), Some(0.0)]) == [0.0, 0.0, 0.0, 1.0, 0.0, 0.0]
  {
  }

  /** Against two vertices, index 5 of [0, 1, 5] is dropped. */
  lemma TwoVerticesFilter()
    ensures ValidateIndices([0, 1, 5], [0.0, 0.0, 0.0, 1.0, 0.0, 0.0]) == [0, 1]
  {
    var raw := [0, 1, 5];
    assert raw[1..] == [1, 5] && raw[1..][1..] == [5] && raw[1..][1..][1..] == [];
  }

  /** Two whole vertices and indices [0, 1, 5]: vertices unchanged, index 5 dropped, two elements drawn. */
  lemma TwoVertexPayload(p: Payload)
    requires Complete(p) && p.vertices == Some([Some(0.0), Some(0.0), Some(0.0), Some(1.0), Some(0.0), Some(0.0)])
    requires p.indices == Some([0, 1, 5])
    ensures Sanitise(p).Success?
    ensures Sanitise(p).value.vertices == [0.0, 0.0, 0.0, 1.0, 0.0, 0.0]
    ensures Sanitise(p).value.indices == [0, 1] && Sanitise(p).value.count == 2
  {
    TwoVerticesPadded();
    TwoVerticesFilter();
  }

  /**
   * Indices are filtered against the padded vertex count: four raw
   * components pad to two vertices, so index 1 survives, although the raw
   * count (4 / 3 - 1 < 1) would have dropped it.
   */
  lemma FilterAfterPadding(p: Payload)
    requires Complete(p) && p.vertices == Some([Some(1.0), Some(2.0), Some(3.0), Some(4.0)]) && p.indices == Some([1])
    ensures Sanitise(p).Success? && Sanitise(p).value.indices == [1]
    ensures ValidateIndices([1], [1.0, 2.0, 3.0, 4.0]) == []
  {
    var padded := Padded(p.vertices.value);
    assert |padded| == 6;
    assert WithinMaxIndex(1, |padded|) && !WithinMaxIndex(1, 4);
    assert [1][1..] == [];
    assert ValidateIndices([1], padded) == [1];
  }
}
