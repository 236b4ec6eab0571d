/** The shared helpers of the topology visualiser: colours, the option-checked line,
    fill and text styles, and the end points of a drawn link. */
module Topovis {
  import opened Maybe

  /** The Python values these helpers store and hand back. */
  datatype Value = Int(i: int) | Num(r: real) | Str(s: string) | Tuple(items: seq<Value>) | Nil

  // ---------------------------------------------------------------------------
  // Color

  /** A colour holds its components as a tuple; a colour built from a value that is
      neither a string nor a tuple has no `rgb` at all. */
  datatype Color = Color(rgb: Option<seq<Value>>)

  /** str.split(sep): the pieces between separators, always at least one. */
  function Split(s: string, sep: char): (pieces: seq<string>)
    ensures |pieces| >= 1
  {
    if s == [] then [""]
    else
      var rest := Split(s[1..], sep);
      if s[0] == sep then [""] + rest else [[s[0]] + rest[0]] + rest[1..]
  }

  /** sep.join(pieces). */
  function Join(pieces: seq<string>, sep: char): string
  {
    if |pieces| == 0 then ""
    else if |pieces| == 1 then pieces[0]
    else pieces[0] + [sep] + Join(pieces[1..], sep)
  }

  /** Joining the pieces of a split gives back the string. */
  lemma {:induction false} JoinSplit(s: string, sep: char)
    ensures Join(Split(s, sep), sep) == s
  {
    if s != [] {
      var rest := Split(s[1..], sep);
      JoinSplit(s[1..], sep);
      if s[0] == sep {
        assert Split(s, sep) == [""] + rest;
        assert s == [s[0]] + s[1..];
      } else {
        var r := [[s[0]] + rest[0]] + rest[1..];
        assert Split(s, sep) == r;
        if |rest| == 1 {
          assert Join(r, sep) == [s[0]] + rest[0];
        } else {
          assert r[1..] == rest[1..];
          assert Join(r, sep) == [s[0]] + rest[0] + [sep] + Join(rest[1..], sep);
          assert Join(rest, sep) == rest[0] + [sep] + Join(rest[1..], sep);
        }
        assert s == [s[0]] + s[1..];
      }
    }
  }

  /** Splitting a piece free of separators, followed by a separator and more text. */
  lemma {:induction false} SplitAfterPiece(a: string, t: string, sep: char)
    requires sep !in a
    ensures Split(a + [sep] + t, sep) == [a] + Split(t, sep)
    ensures Split(a, sep) == [a]
  {
    if a == [] {
      assert [] + [sep] + t == [sep] + t;
      assert ([sep] + t)[1..] == t;
    } else {
      SplitAfterPiece(a[1..], t, sep);
      assert (a + [sep] + t)[1..] == a[1..] + [sep] + t;
      assert (a + [sep] + t)[0] == a[0];
      assert [a[0]] + a[1..] == a;
    }
  }

  /** Splitting the join of pieces free of separators gives back the pieces. */
  lemma {:induction false} SplitJoin(pieces: seq<string>, sep: char)
    requires |pieces| >= 1
    requires forall k :: 0 <= k < |pieces| ==> sep !in pieces[k]
    ensures Split(Join(pieces, sep), sep) == pieces
  {
    if |pieces| == 1 {
      SplitAfterPiece(pieces[0], "", sep);
    } else {
      SplitJoin(pieces[1..], sep);
      SplitAfterPiece(pieces[0], Join(pieces[1..], sep), sep);
      assert [pieces[0]] + pieces[1..] == pieces;
    }
  }

  /** float() over every piece; None when some piece is not a number. */
  function ParseAll(pieces: seq<string>, parse: string -> Option<real>): (r: Option<seq<Value>>)
    ensures r.Some? <==> forall k :: 0 <= k < |pieces| ==> parse(pieces[k]).Some?
    ensures r.Some? ==> |r.value| == |pieces|
    ensures r.Some? ==> forall k :: 0 <= k < |pieces| ==> r.value[k] == Num(parse(pieces[k]).value)
  {
    if pieces == [] then Some([])
    else
      match (parse(pieces[0]), ParseAll(pieces[1..], parse))
      case (Some(x), Some(rest)) => Some([Num(x)] + rest)
      case _ => None
  }

  /** Color(s): a string is split on ',' and each piece read as a float by `parse`
      (a piece that is not a number raises); a tuple is stored unchanged; anything
      else leaves the colour without components. */
  function MakeColor(v: Value, parse: string -> Option<real>): (r: Result<Color>)
    ensures r.Err? <==> v.Str? && exists k :: 0 <= k < |Split(v.s, ',')| && parse(Split(v.s, ',')[k]).None?
    ensures r.Ok? && v.Str? ==>
              && r.value.rgb.Some? && |r.value.rgb.value| == |Split(v.s, ',')|
              && forall k :: 0 <= k < |Split(v.s, ',')| ==> r.value.rgb.value[k] == Num(parse(Split(v.s, ',')[k]).value)
    ensures v.Tuple? ==> r == Ok(Color(Some(v.items)))
    ensures !v.Str? && !v.Tuple? ==> r == Ok(Color(None))
  {
    match v
    case Str(s) =>
      var pieces := Split(s, ',');
      (match ParseAll(pieces, parse)
       case Some(items) => Ok(Color(Some(items)))
       case None =>
         var k :| 0 <= k < |pieces| && parse(pieces[k]).None?;
         assert Split(v.s, ',')[k] == pieces[k];
         Err("could not convert string to float"))
    case Tuple(items) => Ok(Color(Some(items)))
    case _ => Ok(Color(None))
  }

  /** c[x], with Python's negative indices counting from the end. */
  function ColorItem(c: Color, x: int): (r: Result<Value>)
    ensures r.Ok? <==> c.rgb.Some? && -|c.rgb.value| <= x < |c.rgb.value|
    ensures r.Ok? ==> r.value == c.rgb.value[x % |c.rgb.value|]
  {
    match c.rgb
    case None => Err("'Color' object has no attribute 'rgb'")
    case Some(items) =>
      if 0 <= x < |items| then ModInRange(x, |items|); Ok(items[x])
      else if -|items| <= x < 0 then ModInRange(x, |items|); Ok(items[|items| + x])
      else Err("tuple index out of range")
  }

  /** Python's index x into a sequence of length n, for -n <= x < n, is x mod n. */
  lemma ModInRange(x: int, n: int)
    requires -n <= x < n
    ensures 0 <= x ==> x % n == x
    ensures x < 0 ==> x % n == n + x
  {
    if x < 0 {
      assert x == -1 * n + (n + x);
    }
  }

  /** str(c): the components' string forms (`show`) joined by ','. */
  function ColorString(c: Color, show: Value -> string): Result<string>
  {
    match c.rgb
    case None => Err("'Color' object has no attribute 'rgb'")
    case Some(items) => Ok(Join(seq(|items|, k requires 0 <= k < |items| => show(items[k])), ','))
  }

  /** str(c) is defined exactly when the colour has components; the string splits at
      ',' back into the components' string forms, when those hold no ','. */
  lemma ColorStringPieces(c: Color, show: Value -> string)
    ensures ColorString(c, show).Ok? <==> c.rgb.Some?
    ensures c.rgb.Some? && |c.rgb.value| >= 1 && (forall k :: 0 <= k < |c.rgb.value| ==> ',' !in show(c.rgb.value[k])) ==>
              && |Split(ColorString(c, show).value, ',')| == |c.rgb.value|
              && forall k :: 0 <= k < |c.rgb.value| ==> Split(ColorString(c, show).value, ',')[k] == show(c.rgb.value[k])
  {
    if c.rgb.Some? && |c.rgb.value| >= 1 && (forall k :: 0 <= k < |c.rgb.value| ==> ',' !in show(c.rgb.value[k])) {
      var items := c.rgb.value;
      var shown := seq(|items|, k requires 0 <= k < |items| => show(items[k]));
      SplitJoin(shown, ',');
    }
  }

  /** A colour built from a tuple keeps it unchanged: indexing gives each component,
      counting from either end, and every other index is an error. */
  lemma TupleColorIndexing(items: seq<Value>, parse: string -> Option<real>, x: int)
    ensures MakeColor(Tuple(items), parse) == Ok(Color(Some(items)))
    ensures var r := ColorItem(MakeColor(Tuple(items), parse).value, x);
      && (0 <= x < |items| ==> r == Ok(items[x]))
      && (-|items| <= x < 0 ==> r == Ok(items[|items| + x]))
      && (r.Err? <==> !(-|items| <= x < |items|))
  {
  }

  /** A colour built from a string has one component per ','-separated piece; when each
      piece reads as a number whose string form is the piece again, str gives back
      the string. */
  lemma ColorStringRoundTrip(s: string, parse: string -> Option<real>, show: Value -> string)
    requires forall k :: 0 <= k < |Split(s, ',')| ==> parse(Split(s, ',')[k]).Some?
    requires forall k :: 0 <= k < |Split(s, ',')| ==> show(Num(parse(Split(s, ',')[k]).value)) == Split(s, ',')[k]
    ensures MakeColor(Str(s), parse).Ok?
    ensures |MakeColor(Str(s), parse).value.rgb.value| == |Split(s, ',')|
    ensures ColorString(MakeColor(Str(s), parse).value, show) == Ok(s)
  {
    var pieces := Split(s, ',');
    var items := ParseAll(pieces, parse).value;
    var shown := seq(|items|, k requires 0 <= k < |items| => show(items[k]));
    assert shown == pieces;
    JoinSplit(s, ',');
  }

  /** A colour that has no components is an error to index or print. */
  lemma NonColorHasNoComponents(v: Value, parse: string -> Option<real>, show: Value -> string, x: int)
    requires !v.Str? && !v.Tuple?
    ensures MakeColor(v, parse) == Ok(Color(None))
    ensures ColorItem(MakeColor(v, parse).value, x).Err? && ColorString(MakeColor(v, parse).value, show).Err?
  {
  }

  // ---------------------------------------------------------------------------
  // Styles

  /** The attributes a style object ends up with, by name. */
  type Attrs = map<string, Value>

  const BLACK: Value := Tuple([Int(0), Int(0), Int(0)])

  const LINE_OPTIONS: seq<string> := ["color", "dash", "width", "arrow"]
  const LINE_DEFAULTS: Attrs := map["color" := BLACK, "dash" := Tuple([]), "width" := Int(1), "arrow" := Str("none")]
  const FILL_OPTIONS: seq<string> := ["color"]
  const FILL_DEFAULTS: Attrs := map["color" := Nil]
  const TEXT_OPTIONS: seq<string> := ["color", "font", "size"]
  const TEXT_DEFAULTS: Attrs := map["color" := BLACK]

  function UnknownOption(key: string): string
  {
    "Unknown option \"" + key + "\""
  }

  /** The constructor's loop over the keyword arguments, in order: an accepted key sets
      its attribute, the first other key raises. */
  function ApplyOptions(attrs: Attrs, options: seq<string>, kwargs: seq<(string, Value)>): Result<Attrs>
    decreases |kwargs|
  {
    if kwargs == [] then Ok(attrs)
    else if kwargs[0].0 in options then ApplyOptions(attrs[kwargs[0].0 := kwargs[0].1], options, kwargs[1..])
    else Err(UnknownOption(kwargs[0].0))
  }

  /** The value the last argument named `key` gives, if any. */
  function LastValue(kwargs: seq<(string, Value)>, key: string): Option<Value>
  {
    if kwargs == [] then None
    else if kwargs[|kwargs| - 1].0 == key then Some(kwargs[|kwargs| - 1].1)
    else LastValue(kwargs[..|kwargs| - 1], key)
  }

  /** Style construction succeeds exactly when every key is an accepted option;
      otherwise it raises for the first key that is not. */
  lemma {:induction false} OptionsChecked(attrs: Attrs, options: seq<string>, kwargs: seq<(string, Value)>)
    ensures var r := ApplyOptions(attrs, options, kwargs);
      && (r.Ok? <==> forall k :: 0 <= k < |kwargs| ==> kwargs[k].0 in options)
      && (r.Err? ==> exists i :: 0 <= i < |kwargs| && kwargs[i].0 !in options
                       && (forall k :: 0 <= k < i ==> kwargs[k].0 in options)
                       && r == Err(UnknownOption(kwargs[i].0)))
    decreases |kwargs|
  {
    if kwargs != [] && kwargs[0].0 in options {
      var rest := kwargs[1..];
      OptionsChecked(attrs[kwargs[0].0 := kwargs[0].1], options, rest);
      var r := ApplyOptions(attrs, options, kwargs);
      if r.Err? {
        var i :| 0 <= i < |rest| && rest[i].0 !in options
                 && (forall k :: 0 <= k < i ==> rest[k].0 in options)
                 && r == Err(UnknownOption(rest[i].0));
        assert kwargs[i + 1] == rest[i];
        AcceptedPrefix(options, kwargs, i);
      } else {
        AcceptedPrefix(options, kwargs, |rest|);
      }
    } else if kwargs != [] {
      assert kwargs[0].0 !in options;
    }
  }

  /** An accepted first key followed by n accepted keys is n + 1 accepted keys. */
  lemma AcceptedPrefix(options: seq<string>, kwargs: seq<(string, Value)>, n: nat)
    requires 0 < |kwargs| && kwargs[0].0 in options && n < |kwargs|
    requires forall k :: 0 <= k < n ==> kwargs[1..][k].0 in options
    ensures forall k :: 0 <= k < n + 1 ==> kwargs[k].0 in options
  {
    forall k | 0 <= k < n + 1 ensures kwargs[k].0 in options {
      if k > 0 { assert kwargs[k] == kwargs[1..][k - 1]; }
    }
  }

  /** A value of the last argument with a key among the remaining ones, or the current one. */
  lemma {:induction false} LastValueSplit(kwargs: seq<(string, Value)>, key: string)
    requires kwargs != []
    ensures LastValue(kwargs, key) ==
              if LastValue(kwargs[1..], key).Some? then LastValue(kwargs[1..], key)
              else if kwargs[0].0 == key then Some(kwargs[0].1) else None
    decreases |kwargs|
  {
    if |kwargs| > 1 {
      var init := kwargs[..|kwargs| - 1];
      assert kwargs[1..][..|kwargs[1..]| - 1] == init[1..];
      assert kwargs[1..][|kwargs[1..]| - 1] == kwargs[|kwargs| - 1];
      assert init[0] == kwargs[0];
      LastValueSplit(init, key);
    } else {
      assert kwargs[..0] == [];
    }
  }

  /** A constructed style has its defaults and the attributes the arguments name; each
      attribute holds the value of the last argument naming it, or its default. */
  lemma {:induction false} OptionsOverride(attrs: Attrs, options: seq<string>, kwargs: seq<(string, Value)>)
    requires ApplyOptions(attrs, options, kwargs).Ok?
    ensures var a := ApplyOptions(attrs, options, kwargs).value;
      forall key :: (key in a <==> key in attrs || LastValue(kwargs, key).Some?)
                    && (key in a ==> a[key] == if LastValue(kwargs, key).Some? then LastValue(kwargs, key).value else attrs[key])
    decreases |kwargs|
  {
    if kwargs != [] {
      var attrs' := attrs[kwargs[0].0 := kwargs[0].1];
      OptionsOverride(attrs', options, kwargs[1..]);
      forall key ensures LastValue(kwargs, key) ==
              if LastValue(kwargs[1..], key).Some? then LastValue(kwargs[1..], key)
              else if kwargs[0].0 == key then Some(kwargs[0].1) else None
      {
        LastValueSplit(kwargs, key);
      }
    }
  }

  /** The loop of the style constructors: start from the defaults and set each
      accepted option in turn, raising at the first unknown one. */
  method SetOptions(defaults: Attrs, options: seq<string>, kwargs: seq<(string, Value)>) returns (r: Result<Attrs>)
    ensures r == ApplyOptions(defaults, options, kwargs)
  {
    var attrs := defaults;
    var i := 0;
    while i < |kwargs|
      invariant 0 <= i <= |kwargs|
      invariant ApplyOptions(defaults, options, kwargs) == ApplyOptions(attrs, options, kwargs[i..])
    {
      var (k, v) := kwargs[i];
      if k in options {
        attrs := attrs[k := v];
      } else {
        return Err(UnknownOption(k));
      }
      assert kwargs[i..][1..] == kwargs[i + 1..];
      i := i + 1;
    }
    r := Ok(attrs);
  }

  /** LineStyle(**kwargs). */
  method NewLineStyle(kwargs: seq<(string, Value)>) returns (r: Result<Attrs>)
    ensures r == ApplyOptions(LINE_DEFAULTS, LINE_OPTIONS, kwargs)
  {
    r := SetOptions(LINE_DEFAULTS, LINE_OPTIONS, kwargs);
  }

  /** FillStyle(**kwargs). */
  method NewFillStyle(kwargs: seq<(string, Value)>) returns (r: Result<Attrs>)
    ensures r == ApplyOptions(FILL_DEFAULTS, FILL_OPTIONS, kwargs)
  {
    r := SetOptions(FILL_DEFAULTS, FILL_OPTIONS, kwargs);
  }

  /** TextStyle(**kwargs). */
  method NewTextStyle(kwargs: seq<(string, Value)>) returns (r: Result<Attrs>)
    ensures r == ApplyOptions(TEXT_DEFAULTS, TEXT_OPTIONS, kwargs)
  {
    r := SetOptions(TEXT_DEFAULTS, TEXT_OPTIONS, kwargs);
  }

  /** With no arguments a line is solid, black, one wide and without arrow heads, a fill
      has no colour, and a text is black with no font or size set; a text style has a
      font or size only when an argument gives one. */
  lemma StyleDefaults(kwargs: seq<(string, Value)>)
    ensures ApplyOptions(LINE_DEFAULTS, LINE_OPTIONS, []) ==
              Ok(map["color" := Tuple([Int(0), Int(0), Int(0)]), "dash" := Tuple([]), "width" := Int(1), "arrow" := Str("none")])
    ensures ApplyOptions(FILL_DEFAULTS, FILL_OPTIONS, []) == Ok(map["color" := Nil])
    ensures ApplyOptions(TEXT_DEFAULTS, TEXT_OPTIONS, []) == Ok(map["color" := Tuple([Int(0), Int(0), Int(0)])])
    ensures var r := ApplyOptions(TEXT_DEFAULTS, TEXT_OPTIONS, kwargs);
      r.Ok? ==> ("font" in r.value <==> LastValue(kwargs, "font").Some?) && ("size" in r.value <==> LastValue(kwargs, "size").Some?)
  {
    if ApplyOptions(TEXT_DEFAULTS, TEXT_OPTIONS, kwargs).Ok? {
      OptionsOverride(TEXT_DEFAULTS, TEXT_OPTIONS, kwargs);
    }
  }

  // ---------------------------------------------------------------------------
  // Link end points

  /** A point of the drawing. */
  datatype Point = Point(x: real, y: real)

  /** A node as drawn: its position and its scale. */
  datatype Drawn = Drawn(pos: Point, scale: real)

  /** computeLinkEndPoints: both ends of the segment drawn for a link, pulled in from
      the node centres by `nodesize` times each node's scale along the link. `dist` is
      the length math.sqrt(dx*dx + dy*dy) of the link, zero exactly when the two
      positions coincide. Coincident nodes give the destination position twice. */
  function LinkEndPoints(src: Drawn, dst: Drawn, nodesize: real, dist: real): (ends: (Point, Point))
    requires dist >= 0.0 && (dist == 0.0 <==> src.pos == dst.pos)
  {
    var dx := dst.pos.x - src.pos.x;
    var dy := dst.pos.y - src.pos.y;
    if dist == 0.0 then (dst.pos, dst.pos)
    else
      var ux := dx / dist;
      var uy := dy / dist;
      (Point(src.pos.x + ux * nodesize * src.scale, src.pos.y + uy * nodesize * src.scale),
       Point(dst.pos.x - ux * nodesize * dst.scale, dst.pos.y - uy * nodesize * dst.scale))
  }

  /** For coincident nodes both ends are the destination position, whatever the node
      size and scales; for distinct nodes with a zero node size the ends are the node
      centres. */
  lemma LinkEndPointsCoincide(src: Drawn, dst: Drawn, nodesize: real, dist: real)
    requires dist >= 0.0 && (dist == 0.0 <==> src.pos == dst.pos)
    ensures src.pos == dst.pos ==> LinkEndPoints(src, dst, nodesize, dist) == (dst.pos, dst.pos)
    ensures src.pos != dst.pos && nodesize == 0.0 ==> LinkEndPoints(src, dst, nodesize, dist) == (src.pos, dst.pos)
  {
  }

  /** The link is drawn the same whichever end is the source: swapping the two nodes
      swaps the two end points. */
  lemma LinkEndPointsSymmetric(src: Drawn, dst: Drawn, nodesize: real, dist: real)
    requires dist >= 0.0 && (dist == 0.0 <==> src.pos == dst.pos)
    ensures LinkEndPoints(dst, src, nodesize, dist).0 == LinkEndPoints(src, dst, nodesize, dist).1
    ensures LinkEndPoints(dst, src, nodesize, dist).1 == LinkEndPoints(src, dst, nodesize, dist).0
  {
    if dist != 0.0 {
      NegatedStep(src.pos.x, dst.pos.x, dist, nodesize, src.scale);
      NegatedStep(src.pos.x, dst.pos.x, dist, nodesize, dst.scale);
      NegatedStep(src.pos.y, dst.pos.y, dist, nodesize, src.scale);
      NegatedStep(src.pos.y, dst.pos.y, dist, nodesize, dst.scale);
      var (s0, s1) := LinkEndPoints(src, dst, nodesize, dist);
      var (r0, r1) := LinkEndPoints(dst, src, nodesize, dist);
      assert s0.x == src.pos.x + (dst.pos.x - src.pos.x) / dist * nodesize * src.scale;
      assert r1.x == src.pos.x - (src.pos.x - dst.pos.x) / dist * nodesize * src.scale;
      assert s0.y == src.pos.y + (dst.pos.y - src.pos.y) / dist * nodesize * src.scale;
      assert r1.y == src.pos.y - (src.pos.y - dst.pos.y) / dist * nodesize * src.scale;
      assert s1.x == dst.pos.x - (dst.pos.x - src.pos.x) / dist * nodesize * dst.scale;
      assert r0.x == dst.pos.x + (src.pos.x - dst.pos.x) / dist * nodesize * dst.scale;
      assert s1.y == dst.pos.y - (dst.pos.y - src.pos.y) / dist * nodesize * dst.scale;
      assert r0.y == dst.pos.y + (src.pos.y - dst.pos.y) / dist * nodesize * dst.scale;
    } else {
      assert LinkEndPoints(dst, src, nodesize, dist) == (src.pos, src.pos);
    }
  }

  /** Reversing the link reverses the step taken along it. */
  lemma NegatedStep(a: real, b: real, dist: real, nodesize: real, scale: real)
    requires dist != 0.0
    ensures (a - b) / dist * nodesize * scale == -((b - a) / dist * nodesize * scale)
  {
    var u := (b - a) / dist;
    assert u * dist == b - a;
    assert (-u) * dist == a - b;
    assert (a - b) / dist == -u;
  }
}
