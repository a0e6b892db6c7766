/**
 * The text side of the mesh loader `obj_import` in src/image_procs.rs:
 * cutting the file into lines, splitting lines into space-separated tokens,
 * reading `v/vt/vn` face tokens (`get_v_indexes`, `get_n_index`) and the
 * line-by-line state machine that turns `color`, `light`, `v`, `vn` and `f`
 * lines into triangles.
 *
 * The file is read as ASCII text. Every `unwrap` or index that would panic
 * in the source makes the model return `None`.
 */
module Mesh {
  import opened Convs

  // ---------------------------------------------------------------------
  // Splitting

  /** `s.split(sep)`: the pieces between separators; there is always one more piece than separators. */
  function Split(s: string, sep: char): (r: seq<string>)
    ensures |r| >= 1
    ensures forall k :: 0 <= k < |r| ==> sep !in r[k]
  {
    if s == [] then [[]]
    else
      var rest := Split(s[1..], sep);
      if s[0] == sep then [[]] + rest else [[s[0]] + rest[0]] + rest[1..]
  }

  /** The pieces glued back with the separator. */
  function Join(parts: seq<string>, sep: char): string
    requires |parts| >= 1
  {
    if |parts| == 1 then parts[0] else parts[0] + [sep] + Join(parts[1..], sep)
  }

  /** Joining the pieces of a split gives back the text. */
  lemma {:induction false} SplitJoin(s: string, sep: char)
    ensures Join(Split(s, sep), sep) == s
  {
    if s != [] {
      var rest := Split(s[1..], sep);
      SplitJoin(s[1..], sep);
      if s[0] == sep {
        assert Split(s, sep)[1..] == rest;
      } else if |rest| > 1 {
        assert Split(s, sep)[1..] == rest[1..];
        assert Join(rest, sep) == rest[0] + [sep] + Join(rest[1..], sep);
      }
    }
  }

  /** A character that is not in the text is in none of its pieces. */
  lemma {:induction false} SplitKeepsOut(s: string, sep: char, c: char)
    requires c !in s
    ensures forall k :: 0 <= k < |Split(s, sep)| ==> c !in Split(s, sep)[k]
  {
    if s != [] {
      SplitKeepsOut(s[1..], sep, c);
      var rest := Split(s[1..], sep);
      if s[0] != sep {
        assert c !in [s[0]] + rest[0];
      }
    }
  }

  /** The pieces after one more character: a new empty piece at a separator, else the last piece grows. */
  function Extend(parts: seq<string>, c: char, sep: char): (r: seq<string>)
    requires |parts| >= 1
    ensures |r| >= 1
  {
    if c == sep then parts + [[]] else parts[..|parts| - 1] + [parts[|parts| - 1] + [c]]
  }

  lemma ExtendUnderHead(head: string, rest: seq<string>, c: char, sep: char)
    requires |rest| >= 1
    ensures Extend([head + rest[0]] + rest[1..], c, sep) ==
            [head + Extend(rest, c, sep)[0]] + Extend(rest, c, sep)[1..]
  {
    var n := |rest|;
    var whole := [head + rest[0]] + rest[1..];
    if c == sep {
      assert whole + [[]] == [head + rest[0]] + (rest + [[]])[1..];
    } else if n == 1 {
      assert whole == [head + rest[0]];
      assert Extend(rest, c, sep) == [rest[0] + [c]];
      assert head + (rest[0] + [c]) == (head + rest[0]) + [c];
    } else {
      assert Extend(rest, c, sep)[0] == rest[0];
      assert Extend(rest, c, sep)[1..] == rest[1..n - 1] + [rest[n - 1] + [c]];
      assert whole[..n - 1] == [head + rest[0]] + rest[1..n - 1];
    }
  }

  lemma ExtendUnderEmpty(rest: seq<string>, c: char, sep: char)
    requires |rest| >= 1
    ensures Extend([[]] + rest, c, sep) == [[]] + Extend(rest, c, sep)
  {
    var whole := [[]] + rest;
    assert whole[..|whole| - 1] == [[]] + rest[..|rest| - 1];
  }

  /** How a split changes when one character is appended. */
  lemma {:induction false} SplitSnoc(s: string, c: char, sep: char)
    ensures Split(s + [c], sep) == Extend(Split(s, sep), c, sep)
  {
    if s == [] {
      assert s + [c] == [c];
      assert [c][1..] == [];
      assert Split([], sep) == [[]];
      if c == sep {
        assert Split([c], sep) == [[]] + [[]];
      } else {
        assert Split([c], sep) == [[c] + []] + [[]][1..];
        assert [c] + [] == [c];
      }
    } else {
      var t := s[1..];
      var rest := Split(t, sep);
      assert (s + [c])[1..] == t + [c];
      assert (s + [c])[0] == s[0];
      SplitSnoc(t, c, sep);
      if s[0] == sep {
        ExtendUnderEmpty(rest, c, sep);
      } else {
        ExtendUnderHead([s[0]], rest, c, sep);
      }
    }
  }

  /** Every character but `\r`, in order. */
  function DropCR(s: string): (r: string)
    ensures '\r' !in r
  {
    if s == [] then [] else DropCR(s[..|s| - 1]) + (if s[|s| - 1] == '\r' then [] else [s[|s| - 1]])
  }

  /**
   * The first loop of `obj_import`: a new line at every `\n`, `\r` dropped,
   * and the text after the last `\n` as the final line.
   */
  method SplitLines(data: string) returns (lines: seq<string>)
    ensures lines == Split(DropCR(data), '\n')
    ensures Join(lines, '\n') == DropCR(data)
    ensures forall k :: 0 <= k < |lines| ==> '\n' !in lines[k] && '\r' !in lines[k]
  {
    var curr: string := [];
    lines := [];
    for i := 0 to |data|
      invariant lines + [curr] == Split(DropCR(data[..i]), '\n')
    {
      var b := data[i];
      assert data[..i + 1] == data[..i] + [b];
      SplitSnoc(DropCR(data[..i]), b, '\n');
      if b == '\n' {
        lines := lines + [curr];
        curr := [];
      } else if b != '\r' {
        assert DropCR(data[..i + 1]) == DropCR(data[..i]) + [b];
        curr := curr + [b];
      } else {
        assert DropCR(data[..i + 1]) == DropCR(data[..i]);
      }
    }
    lines := lines + [curr];
    assert data[..|data|] == data;
    SplitJoin(DropCR(data), '\n');
    SplitKeepsOut(DropCR(data), '\n', '\r');
  }

  // ---------------------------------------------------------------------
  // Unsigned integers, as `str::parse::<usize>()` / `::<u8>()` read them

  const USIZE_MAX: nat := 0xFFFF_FFFF_FFFF_FFFF

  predicate IsDigit(c: char) { '0' <= c <= '9' }

  /** One or more decimal digits. */
  predicate IsNumeral(s: string) { |s| > 0 && forall k :: 0 <= k < |s| ==> IsDigit(s[k]) }

  function DigitsValue(s: string): nat
    requires forall k :: 0 <= k < |s| ==> IsDigit(s[k])
  {
    if s == [] then 0
    else
      assert IsDigit(s[|s| - 1]);
      DigitsValue(s[..|s| - 1]) * 10 + (s[|s| - 1] as int - '0' as int)
  }

  /** An optional `+`, then one or more decimal digits, the value at most `max`. */
  function ParseUnsigned(s: string, max: nat): (r: Option<nat>)
    ensures r.Some? ==> r.value <= max
    ensures r.Some? ==> |s| > 0 && forall k :: 0 <= k < |s| ==> IsDigit(s[k]) || (k == 0 && s[k] == '+')
    ensures IsNumeral(s) ==> r == if DigitsValue(s) <= max then Some(DigitsValue(s)) else None
    ensures |s| > 0 && s[0] == '+' ==>
      r == if IsNumeral(s[1..]) && DigitsValue(s[1..]) <= max then Some(DigitsValue(s[1..])) else None
  {
    var body := if |s| > 0 && s[0] == '+' then s[1..] else s;
    if |body| > 0 && (forall k :: 0 <= k < |body| ==> IsDigit(body[k])) && DigitsValue(body) <= max
    then Some(DigitsValue(body)) else None
  }

  /** The decimal digit of a number below ten. */
  function DigitChar(d: nat): (c: char)
    requires d < 10
    ensures IsDigit(c) && c as int - '0' as int == d
  {
    ('0' as int + d) as char
  }

  /** The decimal rendering of `n`, most significant digit first, with no leading zero. */
  function Decimal(n: nat): (s: string)
    ensures IsNumeral(s) && (|s| > 1 ==> s[0] != '0')
  {
    if n < 10 then [DigitChar(n)] else Decimal(n / 10) + [DigitChar(n % 10)]
  }

  /** Reading back the rendering of a number gives the number. */
  lemma {:induction false} DecimalValue(n: nat)
    ensures DigitsValue(Decimal(n)) == n
  {
    if n >= 10 {
      DecimalValue(n / 10);
      var s := Decimal(n);
      assert s[..|s| - 1] == Decimal(n / 10);
    }
  }

  /** The rendering of a number parses back to it exactly when it is in range. */
  lemma DecimalRoundTrip(n: nat, max: nat)
    ensures ParseUnsigned(Decimal(n), max) == if n <= max then Some(n) else None
  {
    DecimalValue(n);
  }

  function ParseUsize(s: string): Option<nat> { ParseUnsigned(s, USIZE_MAX) }

  function ParseU8(s: string): Option<nat> { ParseUnsigned(s, 255) }

  /** A text holding a `/` is not a number. */
  lemma ParseRejectsSlash(s: string, max: nat)
    requires '/' in s
    ensures ParseUnsigned(s, max) == None
  {
    var k :| 0 <= k < |s| && s[k] == '/';
    assert !IsDigit(s[k]);
  }

  // ---------------------------------------------------------------------
  // get_n_index

  /**
   * The normal index of a face token: the number after its second `/`.
   * Fewer than two `/`, or nothing (or another `/`) right after the second
   * one, gives 0; anything after it that is not a number makes the
   * source's `unwrap` panic (`None`).
   */
  function NIndex(v: string): Option<nat>
  {
    var parts := Split(v, '/');
    if |parts| < 3 then Some(0) else AfterSecondSlash(parts[2..])
  }

  function AfterSecondSlash(parts: seq<string>): Option<nat>
    requires |parts| >= 1
  {
    if parts[0] == [] then Some(0) else if |parts| > 1 then None else ParseUsize(parts[0])
  }

  /** The scan `get_n_index` makes from a position where `c` slashes have been seen. */
  function ScanN(v: string, c: nat): Option<nat>
  {
    if v == [] then Some(0)
    else if v[0] == '/' then ScanN(v[1..], c + 1)
    else if c == 2 then ParseUsize(v)
    else ScanN(v[1..], c)
  }

  lemma {:induction false} ScanPastThird(v: string, c: nat)
    requires c >= 3
    ensures ScanN(v, c) == Some(0)
  {
    if v != [] {
      ScanPastThird(v[1..], if v[0] == '/' then c + 1 else c);
    }
  }

  /** After two slashes, a token that goes on with something other than `/` is parsed whole. */
  lemma ScanAtNumber(v: string)
    requires v != [] && v[0] != '/'
    ensures ScanN(v, 2) == AfterSecondSlash(Split(v, '/'))
  {
    var rest := Split(v[1..], '/');
    if |rest| > 1 {
      assert '/' in v by {
        SplitJoin(v[1..], '/');
        assert Join(rest, '/') == rest[0] + ['/'] + Join(rest[1..], '/');
        assert v[1..][|rest[0]|] == '/';
      }
      ParseRejectsSlash(v, USIZE_MAX);
    } else {
      SplitJoin(v[1..], '/');
      assert v == [v[0]] + v[1..];
    }
  }

  /** The piece-wise reading once `c` slashes have been passed. */
  function Pieces(parts: seq<string>, c: nat): Option<nat>
    requires c <= 2
  {
    if |parts| < 3 - c then Some(0) else AfterSecondSlash(parts[2 - c..])
  }

  lemma PiecesAtSlash(rest: seq<string>, c: nat)
    requires c < 2
    ensures Pieces([[]] + rest, c) == Pieces(rest, c + 1)
  {
    if |rest| >= 2 - c {
      assert ([[]] + rest)[2 - c..] == rest[1 - c..];
    }
  }

  lemma PiecesInFirst(head: string, rest: seq<string>, c: nat)
    requires c < 2 && |rest| >= 1
    ensures Pieces([head + rest[0]] + rest[1..], c) == Pieces(rest, c)
  {
    if |rest| >= 3 - c {
      assert ([head + rest[0]] + rest[1..])[2 - c..] == rest[2 - c..];
    }
  }

  /** The character scan agrees with the piece-wise description. */
  lemma {:induction false} ScanMatchesPieces(v: string, c: nat)
    requires c <= 2
    ensures ScanN(v, c) == Pieces(Split(v, '/'), c)
  {
    if v != [] {
      var rest := Split(v[1..], '/');
      if v[0] == '/' {
        if c == 2 {
          ScanPastThird(v[1..], 3);
        } else {
          ScanMatchesPieces(v[1..], c + 1);
          PiecesAtSlash(rest, c);
        }
      } else if c == 2 {
        ScanAtNumber(v);
      } else {
        ScanMatchesPieces(v[1..], c);
        PiecesInFirst([v[0]], rest, c);
      }
    }
  }

  /** `get_n_index`: walk the token counting `/`; at the first other character after two of them, parse the rest. */
  method GetNIndex(v: string) returns (r: Option<nat>)
    ensures r == NIndex(v)
  {
    var c: nat := 0;
    for i := 0 to |v|
      invariant ScanN(v[i..], c) == ScanN(v, 0)
    {
      assert v[i..][1..] == v[i + 1..];
      if v[i] == '/' {
        c := c + 1;
      } else if c == 2 {
        r := ParseUsize(v[i..]);
        ScanMatchesPieces(v, 0);
        return;
      }
    }
    r := Some(0);
    ScanMatchesPieces(v, 0);
  }

  // ---------------------------------------------------------------------
  // get_v_indexes

  /** For every token holding a `/`, its text before the first `/`. */
  function Heads(tokens: seq<string>): seq<string>
  {
    if tokens == [] then []
    else
      var t := tokens[|tokens| - 1];
      Heads(tokens[..|tokens| - 1]) + (if '/' in t then [Split(t, '/')[0]] else [])
  }

  /** Every text parsed as a `usize`, or `None` if one is not a number. */
  function ParseAll(texts: seq<string>): (r: Option<seq<nat>>)
    ensures r.Some? ==> |r.value| == |texts|
    ensures r.Some? ==> forall k :: 0 <= k < |texts| ==> ParseUsize(texts[k]) == Some(r.value[k])
    ensures (forall k :: 0 <= k < |texts| ==> ParseUsize(texts[k]).Some?) ==> r.Some?
  {
    if texts == [] then Some([])
    else
      match ParseAll(texts[..|texts| - 1])
      case None => None
      case Some(ns) =>
        match ParseUsize(texts[|texts| - 1])
        case None => None
        case Some(n) => Some(ns + [n])
  }

  /** The vertex indices of a face line: the number before the first `/` of each token after the first. */
  function VIndexes(line: seq<string>): Option<seq<nat>>
  {
    if |line| <= 1 then Some([]) else ParseAll(Heads(line[1..]))
  }

  lemma {:induction false} ParseAllFails(texts: seq<string>, more: seq<string>)
    requires ParseAll(texts) == None
    ensures ParseAll(texts + more) == None
    decreases |more|
  {
    if more == [] {
      assert texts + more == texts;
    } else {
      var all := texts + more;
      assert all[..|all| - 1] == texts + more[..|more| - 1];
      ParseAllFails(texts, more[..|more| - 1]);
    }
  }

  lemma {:induction false} HeadsAppend(a: seq<string>, b: seq<string>)
    ensures Heads(a + b) == Heads(a) + Heads(b)
    decreases |b|
  {
    if b == [] {
      assert a + b == a;
    } else {
      var all := a + b;
      assert all[..|all| - 1] == a + b[..|b| - 1];
      HeadsAppend(a, b[..|b| - 1]);
    }
  }

  /** The piece before the first separator is the text up to its first occurrence. */
  lemma {:induction false} SplitHead(v: string, j: nat, sep: char)
    requires j < |v| && v[j] == sep && forall k :: 0 <= k < j ==> v[k] != sep
    ensures Split(v, sep)[0] == v[..j]
  {
    if j > 0 {
      SplitHead(v[1..], j - 1, sep);
      assert v[..j] == [v[0]] + v[1..][..j - 1];
    }
  }

  lemma HeadsSnoc(tokens: seq<string>, v: string)
    ensures Heads(tokens + [v]) == Heads(tokens) + if '/' in v then [Split(v, '/')[0]] else []
  {
    assert (tokens + [v])[..|tokens|] == tokens;
  }

  lemma ParseAllSnoc(texts: seq<string>, t: string, ns: seq<nat>, n: nat)
    requires ParseAll(texts) == Some(ns) && ParseUsize(t) == Some(n)
    ensures ParseAll(texts + [t]) == Some(ns + [n])
  {
    assert (texts + [t])[..|texts|] == texts;
  }

  /** What one more token does to the parsed prefix. */
  lemma VIndexesStep(line: seq<string>, i: nat, output: seq<nat>)
    requires 1 <= i < |line| && ParseAll(Heads(line[1..i])) == Some(output)
    ensures ParseAll(Heads(line[1..i + 1])) ==
      if '/' !in line[i] then Some(output)
      else match ParseUsize(Split(line[i], '/')[0])
        case None => None
        case Some(n) => Some(output + [n])
  {
    assert line[1..i + 1] == line[1..i] + [line[i]];
    HeadsSnoc(line[1..i], line[i]);
    if '/' in line[i] {
      var t := Split(line[i], '/')[0];
      if ParseUsize(t).Some? {
        ParseAllSnoc(Heads(line[1..i]), t, output, ParseUsize(t).value);
      } else {
        assert (Heads(line[1..i]) + [t])[..|Heads(line[1..i])|] == Heads(line[1..i]);
      }
    } else {
      assert Heads(line[1..i]) + [] == Heads(line[1..i]);
    }
  }

  /** A token that fails to parse makes the whole face fail. */
  lemma VIndexesFail(line: seq<string>, i: nat)
    requires 1 <= i <= |line| && ParseAll(Heads(line[1..i])) == None
    ensures VIndexes(line) == None
  {
    ParseAllFails(Heads(line[1..i]), Heads(line[i..]));
    HeadsAppend(line[1..i], line[i..]);
    assert line[1..i] + line[i..] == line[1..];
  }

  /** The inner character loop of `get_v_indexes`: the position of the first `/`, or `|v|` when there is none. */
  method FirstSlash(v: string) returns (j: nat)
    ensures j <= |v| && (j < |v| ==> v[j] == '/')
    ensures forall k :: 0 <= k < j ==> v[k] != '/'
  {
    j := 0;
    while j < |v| && v[j] != '/'
      invariant 0 <= j <= |v|
      invariant forall k :: 0 <= k < j ==> v[k] != '/'
    {
      j := j + 1;
    }
  }

  /** `get_v_indexes`: for every token after the first, parse what precedes its first `/`. */
  method GetVIndexes(line: seq<string>) returns (r: Option<seq<nat>>)
    ensures r == VIndexes(line)
  {
    var output: seq<nat> := [];
    if |line| <= 1 {
      return Some(output);
    }
    for i := 1 to |line|
      invariant ParseAll(Heads(line[1..i])) == Some(output)
    {
      var v := line[i];
      VIndexesStep(line, i, output);
      var j := FirstSlash(v);
      if j < |v| {
        SplitHead(v, j, '/');
        var n := ParseUsize(v[..j]);
        if n.None? {
          VIndexesFail(line, i + 1);
          return None;
        }
        output := output + [n.value];
      } else {
        assert '/' !in v;
      }
    }
    assert line[1..|line|] == line[1..];
    r := Some(output);
  }

  // ---------------------------------------------------------------------
  // The directive state machine of obj_import

  /** What `obj_import` carries from line to line. */
  datatype MeshState = MeshState(vs: seq<Xyz>, ns: seq<Xyz>, output: seq<Object>,
                                 currColor: Rgb, light: bool)

  const Start: MeshState := MeshState([], [], [], Black, false)

  /** Reflectivity of a face: `rfty` times 50 under a `light` directive, else `rfty`. */
  function LitRfty(rfty: real, light: bool): real { if light then rfty * 50.0 else rfty }

  /** Triangles a face line adds: one for four tokens, two for five, none otherwise. */
  function FacesOf(line: seq<string>): nat
  {
    if |line| >= 1 && line[0] == "f" then (if |line| == 4 then 1 else if |line| == 5 then 2 else 0) else 0
  }

  /** The three coordinates of a `v`/`vn` line, in the order x = line[1], y = line[2], z = line[3]. */
  function Coords(line: seq<string>, parseF32: string -> Option<real>): Option<Xyz>
  {
    if |line| < 4 then None
    else match (parseF32(line[3]), parseF32(line[1]), parseF32(line[2]))
      case (Some(z), Some(x), Some(y)) => Some(Xyz(x, y, z))
      case _ => None
  }

  /** Vertex number `k` of a face (1-based in the file). */
  function Vertex(vs: seq<Xyz>, cvs: seq<nat>, k: nat): Option<Xyz>
  {
    if k < |cvs| && 1 <= cvs[k] <= |vs| then Some(vs[cvs[k] - 1]) else None
  }

  /** The normal of a face: the `vn` numbered after the second `/` of its first vertex token. */
  function FaceNormal(ns: seq<Xyz>, token: string): Option<Xyz>
  {
    match NIndex(token)
    case Some(n) => if 1 <= n <= |ns| then Some(ns[n - 1]) else None
    case None => None
  }

  function Tri(st: MeshState, n: Xyz, v0: Xyz, v1: Xyz, v2: Xyz, rfty: real): Object
  {
    NewTriangle(n, st.currColor, v0, v1, v2, LitRfty(rfty, st.light), st.light)
  }

  /** The triangles of a 4- or 5-token face line. */
  function Face(st: MeshState, line: seq<string>, rfty: real): (r: Option<seq<Object>>)
    requires |line| == 4 || |line| == 5
    ensures r.Some? <==> (VIndexes(line).Some? && FaceNormal(st.ns, line[1]).Some? &&
                          Vertex(st.vs, VIndexes(line).value, 0).Some? &&
                          Vertex(st.vs, VIndexes(line).value, 1).Some? &&
                          Vertex(st.vs, VIndexes(line).value, 2).Some? &&
                          (|line| == 5 ==> Vertex(st.vs, VIndexes(line).value, 3).Some?))
    ensures r.Some? ==> |r.value| == |line| - 3
  {
    match (VIndexes(line), FaceNormal(st.ns, line[1]))
    case (Some(cvs), Some(n)) =>
      (match (Vertex(st.vs, cvs, 0), Vertex(st.vs, cvs, 1), Vertex(st.vs, cvs, 2))
       case (Some(v0), Some(v1), Some(v2)) =>
         if |line| == 4 then Some([Tri(st, n, v0, v1, v2, rfty)])
         else
           (match Vertex(st.vs, cvs, 3)
            case Some(v3) => Some([Tri(st, n, v0, v1, v2, rfty), Tri(st, n, v0, v2, v3, rfty)])
            case None => None)
       case _ => None)
    case _ => None
  }

  /**
   * One line of `obj_import`. `color r g b` sets the colour and clears the
   * light flag; `light` sets it; `v` and `vn` append a vertex and a normal
   * (axes swapped, `v` moved by `pos`); `f` with three or four vertex tokens
   * appends one or two triangles; everything else is ignored.
   */
  function Step(st: MeshState, line: seq<string>, pos: Xyz, rfty: real,
                parseF32: string -> Option<real>): (r: Option<MeshState>)
    requires |line| >= 1
    ensures r.Some? ==> |r.value.output| == |st.output| + FacesOf(line)
    ensures r.Some? ==> r.value.output[..|st.output|] == st.output
    ensures r.Some? ==> forall k :: |st.output| <= k < |r.value.output| ==>
      var o := r.value.output[k];
      o.objType == TriangleKind && o.a == 0.0 && o.col == st.currColor &&
      o.light == st.light && o.rfty == LitRfty(rfty, st.light)
    ensures r.Some? ==> r.value.light == if line[0] == "light" then true else if line[0] == "color" then false else st.light
    ensures line[0] !in {"color", "light", "v", "vn", "f"} ==> r == Some(st)
  {
    match line[0]
    case "color" =>
      if |line| < 4 then None
      else
        (match (ParseU8(line[1]), ParseU8(line[2]), ParseU8(line[3]))
         case (Some(red), Some(green), Some(blue)) => Some(st.(currColor := Rgb(red, green, blue), light := false))
         case _ => None)
    case "light" => Some(st.(light := true))
    case "v" =>
      (match Coords(line, parseF32)
       case Some(p) => Some(st.(vs := st.vs + [Xyz(-p.z + pos.x, p.x + pos.y, p.y + pos.z)]))
       case None => None)
    case "vn" =>
      (match Coords(line, parseF32)
       case Some(p) => Some(st.(ns := st.ns + [Xyz(-p.z, p.x, p.y)]))
       case None => None)
    case "f" =>
      if |line| == 4 || |line| == 5 then
        (match Face(st, line, rfty)
         case Some(tris) => Some(st.(output := st.output + tris))
         case None => None)
      else Some(st)
    case _ => Some(st)
  }

  /**
   * A four-token face is one triangle on the three named vertices, placed at
   * the normal its first token names.
   */
  lemma TriFace(st: MeshState, line: seq<string>, rfty: real)
    requires |line| == 4 && Face(st, line, rfty).Some?
    ensures var tris := Face(st, line, rfty).value;
      var cvs := VIndexes(line).value;
      |cvs| >= 3 && NIndex(line[1]).Some? && 1 <= NIndex(line[1]).value <= |st.ns| &&
      tris[0].b == st.vs[cvs[0] - 1] &&
      tris[0].c == st.vs[cvs[1] - 1] &&
      tris[0].d == st.vs[cvs[2] - 1] &&
      tris[0].pos == st.ns[NIndex(line[1]).value - 1]
  {
  }

  /**
   * What each directive does. `light` always succeeds and sets the flag.
   * `color r g b` succeeds exactly when there are three byte values, and
   * then it sets the colour and clears the flag. `v` and `vn` succeed
   * exactly when the three coordinates parse, and then they append the
   * swapped-axis point. An `f` line of any other length than 4 or 5 tokens
   * is skipped. Otherwise the line succeeds exactly when its face does, and
   * then it appends the face's triangles.
   */
  lemma StepDirectives(st: MeshState, line: seq<string>, pos: Xyz, rfty: real,
                       parseF32: string -> Option<real>)
    requires |line| >= 1
    ensures var r := Step(st, line, pos, rfty, parseF32);
      line[0] == "light" ==> r == Some(st.(light := true))
    ensures var r := Step(st, line, pos, rfty, parseF32);
      line[0] == "color" ==>
        (r.Some? <==> |line| >= 4 && ParseU8(line[1]).Some? && ParseU8(line[2]).Some? && ParseU8(line[3]).Some?) &&
        (r.Some? ==> r.value == st.(currColor := Rgb(ParseU8(line[1]).value, ParseU8(line[2]).value, ParseU8(line[3]).value),
                                    light := false))
    ensures var r := Step(st, line, pos, rfty, parseF32);
      line[0] == "v" ==>
        (r.Some? <==> Coords(line, parseF32).Some?) &&
        (r.Some? ==> var p := Coords(line, parseF32).value;
                     r.value == st.(vs := st.vs + [Xyz(-p.z + pos.x, p.x + pos.y, p.y + pos.z)]))
    ensures var r := Step(st, line, pos, rfty, parseF32);
      line[0] == "vn" ==>
        (r.Some? <==> Coords(line, parseF32).Some?) &&
        (r.Some? ==> var p := Coords(line, parseF32).value; r.value == st.(ns := st.ns + [Xyz(-p.z, p.x, p.y)]))
    ensures var r := Step(st, line, pos, rfty, parseF32);
      line[0] == "f" && |line| != 4 && |line| != 5 ==> r == Some(st)
    ensures var r := Step(st, line, pos, rfty, parseF32);
      line[0] == "f" && (|line| == 4 || |line| == 5) ==>
        r == if Face(st, line, rfty).Some? then Some(st.(output := st.output + Face(st, line, rfty).value)) else None
  {
  }

  /** A five-token face is split into (v0, v1, v2) and (v0, v2, v3). */
  lemma QuadSplit(st: MeshState, line: seq<string>, rfty: real)
    requires |line| == 5 && Face(st, line, rfty).Some?
    ensures var tris := Face(st, line, rfty).value;
      var cvs := VIndexes(line).value;
      |cvs| >= 4 &&
      tris[0].b == tris[1].b == st.vs[cvs[0] - 1] &&
      tris[0].c == st.vs[cvs[1] - 1] &&
      tris[0].d == tris[1].c == st.vs[cvs[2] - 1] &&
      tris[1].d == st.vs[cvs[3] - 1] &&
      NIndex(line[1]).Some? && 1 <= NIndex(line[1]).value <= |st.ns| &&
      tris[0].pos == tris[1].pos == st.ns[NIndex(line[1]).value - 1]
  {
  }

  /** The tokens of a line. */
  function Tokens(l: string): seq<string> { Split(l, ' ') }

  /** The state after all `lines`, or `None` if one of them makes the source panic. */
  function Run(lines: seq<string>, pos: Xyz, rfty: real, parseF32: string -> Option<real>): Option<MeshState>
  {
    if lines == [] then Some(Start)
    else
      match Run(lines[..|lines| - 1], pos, rfty, parseF32)
      case None => None
      case Some(st) => Step(st, Tokens(lines[|lines| - 1]), pos, rfty, parseF32)
  }

  lemma {:induction false} RunFails(lines: seq<string>, k: nat, pos: Xyz, rfty: real, parseF32: string -> Option<real>)
    requires k <= |lines| && Run(lines[..k], pos, rfty, parseF32) == None
    ensures Run(lines, pos, rfty, parseF32) == None
    decreases |lines| - k
  {
    if k < |lines| {
      assert lines[..k + 1][..k] == lines[..k];
      RunFails(lines, k + 1, pos, rfty, parseF32);
    } else {
      assert lines[..k] == lines;
    }
  }

  /** The kind of the latest `color`/`light` line: true iff it was `light` (false when there is none). */
  function LatestIsLight(lines: seq<string>): bool
  {
    if lines == [] then false
    else
      var head := Tokens(lines[|lines| - 1])[0];
      if head == "light" then true
      else if head == "color" then false
      else LatestIsLight(lines[..|lines| - 1])
  }

  /** The light flag after a run is that of the latest `color`/`light` directive. */
  lemma {:induction false} RunLightFlag(lines: seq<string>, pos: Xyz, rfty: real, parseF32: string -> Option<real>)
    requires Run(lines, pos, rfty, parseF32).Some?
    ensures Run(lines, pos, rfty, parseF32).value.light == LatestIsLight(lines)
  {
    if lines != [] {
      RunLightFlag(lines[..|lines| - 1], pos, rfty, parseF32);
    }
  }

  /**
   * The light flag of every triangle the lines describe, in order: each face
   * line's triangles take the flag of the latest directive before it.
   */
  function Flags(lines: seq<string>): seq<bool>
  {
    if lines == [] then []
    else
      var front := lines[..|lines| - 1];
      Flags(front) + seq(FacesOf(Tokens(lines[|lines| - 1])), _ => LatestIsLight(front))
  }

  /** Each loaded triangle is lit exactly when the latest directive before its face line is `light`. */
  lemma {:induction false} RunFlags(lines: seq<string>, pos: Xyz, rfty: real, parseF32: string -> Option<real>)
    requires Run(lines, pos, rfty, parseF32).Some?
    ensures var out := Run(lines, pos, rfty, parseF32).value.output;
      |out| == |Flags(lines)| && forall k :: 0 <= k < |out| ==> out[k].light == Flags(lines)[k]
  {
    if lines != [] {
      var front := lines[..|lines| - 1];
      RunLast(lines, pos, rfty, parseF32);
      RunFlags(front, pos, rfty, parseF32);
      RunLightFlag(front, pos, rfty, parseF32);
      var st := Run(front, pos, rfty, parseF32).value;
      var st' := Step(st, Tokens(lines[|lines| - 1]), pos, rfty, parseF32).value;
      forall k | 0 <= k < |st.output|
        ensures st'.output[k] == st.output[k]
      {
        assert st'.output[..|st.output|][k] == st'.output[k];
      }
    }
  }

  /** The run of all lines is one step after the run of all but the last. */
  lemma RunLast(lines: seq<string>, pos: Xyz, rfty: real, parseF32: string -> Option<real>)
    requires lines != [] && Run(lines, pos, rfty, parseF32).Some?
    ensures Run(lines[..|lines| - 1], pos, rfty, parseF32).Some?
    ensures Step(Run(lines[..|lines| - 1], pos, rfty, parseF32).value, Tokens(lines[|lines| - 1]),
                 pos, rfty, parseF32) == Run(lines, pos, rfty, parseF32)
  {
  }

  /** Running one more line of a prefix is one more step. */
  lemma RunPrefixStep(lines: seq<string>, k: nat, st: MeshState, pos: Xyz, rfty: real,
                      parseF32: string -> Option<real>)
    requires k < |lines| && Run(lines[..k], pos, rfty, parseF32) == Some(st)
    ensures Run(lines[..k + 1], pos, rfty, parseF32) == Step(st, Tokens(lines[k]), pos, rfty, parseF32)
  {
    assert lines[..k + 1][..k] == lines[..k];
  }

  /** Number of triangles the lines describe. */
  function FaceCount(lines: seq<string>): nat
  {
    if lines == [] then 0 else FaceCount(lines[..|lines| - 1]) + FacesOf(Tokens(lines[|lines| - 1]))
  }

  /** An object as a face line loads it: a triangle, no ambient term, reflectivity scaled when lit. */
  predicate Loaded(o: Object, rfty: real)
  {
    o.objType == TriangleKind && o.a == 0.0 && o.rfty == LitRfty(rfty, o.light)
  }

  /** A step keeps every output object loaded-shaped and adds only such objects. */
  lemma StepLoaded(st: MeshState, line: seq<string>, pos: Xyz, rfty: real, parseF32: string -> Option<real>)
    requires |line| >= 1 && Step(st, line, pos, rfty, parseF32).Some?
    requires forall k :: 0 <= k < |st.output| ==> Loaded(st.output[k], rfty)
    ensures forall k :: 0 <= k < |Step(st, line, pos, rfty, parseF32).value.output| ==>
      Loaded(Step(st, line, pos, rfty, parseF32).value.output[k], rfty)
  {
    var after := Step(st, line, pos, rfty, parseF32).value.output;
    forall k | 0 <= k < |after| ensures Loaded(after[k], rfty) {
      if k < |st.output| {
        assert after[..|st.output|][k] == after[k];
      }
    }
  }

  /**
   * Every object of a run is a triangle whose reflectivity is `rfty` times
   * 50 exactly when it is lit, and there are as many as the face lines say.
   */
  lemma {:induction false} RunOutput(lines: seq<string>, pos: Xyz, rfty: real, parseF32: string -> Option<real>)
    requires Run(lines, pos, rfty, parseF32).Some?
    ensures var out := Run(lines, pos, rfty, parseF32).value.output;
      |out| == FaceCount(lines) &&
      forall k :: 0 <= k < |out| ==>
        out[k].objType == TriangleKind && out[k].a == 0.0 && out[k].rfty == LitRfty(rfty, out[k].light)
  {
    if lines != [] {
      var front := lines[..|lines| - 1];
      RunLast(lines, pos, rfty, parseF32);
      RunOutput(front, pos, rfty, parseF32);
      var st := Run(front, pos, rfty, parseF32).value;
      StepLoaded(st, Tokens(lines[|lines| - 1]), pos, rfty, parseF32);
    }
  }

  /** Without any `light` line, nothing loaded is a light. */
  lemma {:induction false} NoLightLineNoLight(lines: seq<string>, pos: Xyz, rfty: real, parseF32: string -> Option<real>)
    requires Run(lines, pos, rfty, parseF32).Some?
    requires forall k :: 0 <= k < |lines| ==> Tokens(lines[k])[0] != "light"
    ensures !Run(lines, pos, rfty, parseF32).value.light
    ensures forall o :: o in Run(lines, pos, rfty, parseF32).value.output ==> !o.light
  {
    if lines != [] {
      var front := lines[..|lines| - 1];
      assert forall k :: 0 <= k < |front| ==> front[k] == lines[k];
      RunLast(lines, pos, rfty, parseF32);
      NoLightLineNoLight(front, pos, rfty, parseF32);
      var st := Run(front, pos, rfty, parseF32).value;
      var st' := Step(st, Tokens(lines[|lines| - 1]), pos, rfty, parseF32).value;
      var before := st.output;
      var after := st'.output;
      forall o | o in after ensures !o.light {
        var k :| 0 <= k < |after| && after[k] == o;
        if k < |before| {
          assert after[..|before|][k] == after[k];
        }
      }
    }
  }

  /**
   * `obj_import` without the file read: split the text into lines, every
   * line into tokens, run the state machine, return the triangles. `pos` is
   * added to every vertex; `parseF32` stands for `str::parse::<f32>`.
   */
  method ObjImport(data: string, pos: Xyz, rfty: real, parseF32: string -> Option<real>)
    returns (r: Option<seq<Object>>)
    ensures var run := Run(Split(DropCR(data), '\n'), pos, rfty, parseF32);
      r == if run.Some? then Some(run.value.output) else None
  {
    var lines := SplitLines(data);
    var st := Start;
    for k := 0 to |lines|
      invariant Run(lines[..k], pos, rfty, parseF32) == Some(st)
    {
      RunPrefixStep(lines, k, st, pos, rfty, parseF32);
      var next := Step(st, Tokens(lines[k]), pos, rfty, parseF32);
      if next.None? {
        RunFails(lines, k + 1, pos, rfty, parseF32);
        return None;
      }
      st := next.value;
    }
    assert lines[..|lines|] == lines;
    r := Some(st.output);
  }
}
