/**
 * The stroke builder's two representations of a gesture and the path text
 * rendered from them (app/page.tsx).
 *
 * While a gesture is in progress the page keeps its points as one string of
 * `"x,y"` tokens joined by single spaces. Rendering splits that string on ' ',
 * splits every token on ',', and folds the pieces into an SVG path: `M x y`
 * for the first point and ` L x y` for every later one. The same fold draws
 * the red preview and produces the finalized stroke.
 */
module Stroke {
  import opened Wrappers
  import opened Text

  /** A point in the drawing surface's own coordinates, already rounded to integers. */
  datatype Point = Point(x: int, y: int)

  /** One SVG path command. */
  datatype Cmd = MoveTo(x: int, y: int) | LineTo(x: int, y: int)

  // ---------------------------------------------------------------------------
  // The in-progress encoding

  /** The token `${p.x},${p.y}` recorded for one pointer event. */
  function Token(p: Point): string
  {
    IntString(p.x) + "," + IntString(p.y)
  }

  /**
   * The in-progress string after the points `pts` were recorded in this order:
   * the first by pointer-down, each later one appended after a space by
   * pointer-move.
   */
  function Encode(pts: seq<Point>): (s: string)
    ensures s == "" <==> pts == []
  {
    if pts == [] then ""
    else if |pts| == 1 then Token(pts[0])
    else Encode(pts[..|pts| - 1]) + " " + Token(pts[|pts| - 1])
  }

  /** The tokens of `pts`, in order. */
  function Tokens(pts: seq<Point>): (r: seq<string>)
    ensures |r| == |pts|
  {
    seq(|pts|, k requires 0 <= k < |pts| => Token(pts[k]))
  }

  /** Recording one more point appends one token after a single space. */
  lemma EncodeSnoc(pts: seq<Point>, p: Point)
    requires pts != []
    ensures Encode(pts + [p]) == Encode(pts) + " " + Token(p)
  {
    assert (pts + [p])[..|pts|] == pts;
  }

  /** A token splits on ',' into exactly the two coordinates' decimal texts. */
  lemma {:induction false} TokenFields(p: Point)
    ensures ' ' !in Token(p)
    ensures Split(Token(p), ',') == [IntString(p.x), IntString(p.y)]
  {
    IntStringChars(p.x, ' ');
    IntStringChars(p.y, ' ');
    IntStringChars(p.x, ',');
    IntStringChars(p.y, ',');
    assert Token(p) == IntString(p.x) + [','] + IntString(p.y);
    SplitConcat(IntString(p.x), IntString(p.y), ',');
    SplitAbsent(IntString(p.x), ',');
    SplitAbsent(IntString(p.y), ',');
  }

  /**
   * Splitting the in-progress string on ' ' gives back one token per recorded
   * point, in recording order.
   */
  lemma {:induction false} SplitEncode(pts: seq<Point>)
    requires pts != []
    ensures Split(Encode(pts), ' ') == Tokens(pts)
  {
    var n := |pts|;
    var last := Token(pts[n - 1]);
    TokenFields(pts[n - 1]);
    SplitAbsent(last, ' ');
    if n == 1 {
      assert Encode(pts) == last;
      assert Tokens(pts) == [last];
    } else {
      var init := pts[..n - 1];
      SplitEncode(init);
      assert Encode(pts) == Encode(init) + [' '] + last;
      SplitConcat(Encode(init), last, ' ');
      TokensSnoc(init, pts[n - 1]);
      assert init + [pts[n - 1]] == pts;
    }
  }

  lemma TokensSnoc(pts: seq<Point>, p: Point)
    ensures Tokens(pts + [p]) == Tokens(pts) + [Token(p)]
  {
  }

  // ---------------------------------------------------------------------------
  // Reading the encoding back

  /** Reads one `"x,y"` token. */
  function DecodePoint(token: string): Option<Point>
  {
    var f := Split(token, ',');
    if |f| != 2 then None
    else match (ParseInt(f[0]), ParseInt(f[1]))
      case (Some(x), Some(y)) => Some(Point(x, y))
      case _ => None
  }

  function DecodeTokens(tokens: seq<string>): Option<seq<Point>>
  {
    if tokens == [] then Some([])
    else match (DecodePoint(tokens[0]), DecodeTokens(tokens[1..]))
      case (Some(p), Some(ps)) => Some([p] + ps)
      case _ => None
  }

  /** Reads an in-progress string: split on ' ', then every token on ','. */
  function Decode(s: string): Option<seq<Point>>
  {
    DecodeTokens(Split(s, ' '))
  }

  lemma {:induction false} DecodeTokensOf(pts: seq<Point>)
    ensures DecodeTokens(Tokens(pts)) == Some(pts)
  {
    if pts != [] {
      var p := pts[0];
      TokenFields(p);
      ParseIntString(p.x);
      ParseIntString(p.y);
      assert DecodePoint(Token(p)) == Some(p);
      assert Tokens(pts)[1..] == Tokens(pts[1..]);
      DecodeTokensOf(pts[1..]);
      assert [p] + pts[1..] == pts;
    }
  }

  /**
   * The in-progress encoding is lossless: it holds exactly as many tokens as
   * points were recorded, and reading it back yields those points in order.
   */
  lemma {:induction false} DecodeEncode(pts: seq<Point>)
    requires pts != []
    ensures |Split(Encode(pts), ' ')| == |pts|
    ensures Decode(Encode(pts)) == Some(pts)
  {
    SplitEncode(pts);
    DecodeTokensOf(pts);
  }

  /** Two recordings give the same in-progress string only if they are the same points. */
  lemma EncodeInjective(a: seq<Point>, b: seq<Point>)
    requires Encode(a) == Encode(b)
    ensures a == b
  {
    if a != [] && b != [] {
      DecodeEncode(a);
      DecodeEncode(b);
    }
  }

  // ---------------------------------------------------------------------------
  // Rendering

  /** The command drawn for the point at position `k`: move to the first, line to the rest. */
  function Command(pts: seq<Point>, k: nat): Cmd
    requires k < |pts|
  {
    if k == 0 then MoveTo(pts[k].x, pts[k].y) else LineTo(pts[k].x, pts[k].y)
  }

  /** The text of one command, as the path reduce writes it. */
  function CmdText(c: Cmd): string
  {
    match c
    case MoveTo(x, y) => "M" + IntString(x) + " " + IntString(y)
    case LineTo(x, y) => " L" + IntString(x) + " " + IntString(y)
  }

  /** The path text of a point sequence: its commands' texts in point order. */
  function Render(pts: seq<Point>): string
  {
    if pts == [] then "" else Render(pts[..|pts| - 1]) + CmdText(Command(pts, |pts| - 1))
  }

  /**
   * A path is rendered command by command: the empty sequence gives "", and one
   * more point appends exactly one command, a move-to for the first point and a
   * line-to after that, leaving the earlier text untouched.
   */
  lemma RenderSnoc(pts: seq<Point>, p: Point)
    ensures Render([]) == ""
    ensures Render(pts + [p]) ==
      Render(pts) + (if pts == [] then "M" else " L") + IntString(p.x) + " " + IntString(p.y)
  {
    assert (pts + [p])[..|pts|] == pts;
  }

  /** The text of a command holds its own letter once and no other command letter. */
  lemma CmdTextCounts(c: Cmd)
    ensures Count(CmdText(c), 'M') == (if c.MoveTo? then 1 else 0)
    ensures Count(CmdText(c), 'L') == (if c.LineTo? then 1 else 0)
  {
    var head := if c.MoveTo? then "M" else " L";
    var x, y := IntString(c.x), IntString(c.y);
    assert CmdText(c) == head + x + " " + y;
    IntStringChars(c.x, 'M');
    IntStringChars(c.y, 'M');
    IntStringChars(c.x, 'L');
    IntStringChars(c.y, 'L');
    CountAbsent(x, 'M');
    CountAbsent(y, 'M');
    CountAbsent(x, 'L');
    CountAbsent(y, 'L');
    CountConcat(head + x + " ", y, 'M');
    CountConcat(head + x, " ", 'M');
    CountConcat(head, x, 'M');
    CountConcat(head + x + " ", y, 'L');
    CountConcat(head + x, " ", 'L');
    CountConcat(head, x, 'L');
  }

  /**
   * Rendering only ever grows by appending: the empty recording renders as "",
   * and the rendering of a recording is a prefix of the rendering of any longer
   * recording that starts with it. So a preview drawn earlier in a gesture is
   * the start of every later preview and of the finalized stroke.
   */
  lemma {:induction false} RenderPrefix(pts: seq<Point>, more: seq<Point>)
    ensures Render([]) == ""
    ensures Render(pts) <= Render(pts + more)
  {
    if more != [] {
      var init := more[..|more| - 1];
      RenderPrefix(pts, init);
      assert (pts + more)[..|pts + more| - 1] == pts + init;
    } else {
      assert pts + more == pts;
    }
  }

  /** A rendered stroke holds exactly one move-to and one line-to per point after the first. */
  lemma {:induction false} RenderCounts(pts: seq<Point>)
    requires pts != []
    ensures Count(Render(pts), 'M') == 1
    ensures Count(Render(pts), 'L') == |pts| - 1
  {
    var n := |pts|;
    var init := pts[..n - 1];
    var t := CmdText(Command(pts, n - 1));
    CmdTextCounts(Command(pts, n - 1));
    CountConcat(Render(init), t, 'M');
    CountConcat(Render(init), t, 'L');
    if n > 1 {
      RenderCounts(init);
    }
  }

  // ---------------------------------------------------------------------------
  // The string-level fold of app/page.tsx

  /**
   * The x and y texts of a token: its first two pieces when split at commas. A
   * token without a comma has no second piece, so y is undefined, and the
   * template literal prints it as "undefined".
   */
  function Fields(xy: string): (string, string)
  {
    var f := Split(xy, ',');
    (f[0], if |f| >= 2 then f[1] else "undefined")
  }

  /** One step of the reduce: the text added for the token at index `k`. */
  function StepText(xy: string, k: nat): string
  {
    var (x, y) := Fields(xy);
    if k == 0 then "M" + x + " " + y else " L" + x + " " + y
  }

  /**
   * The left fold of the page over the tokens, starting from the empty string
   * and appending the step text of each token with its index.
   */
  function Reduce(tokens: seq<string>): string
  {
    if tokens == [] then ""
    else Reduce(tokens[..|tokens| - 1]) + StepText(tokens[|tokens| - 1], |tokens| - 1)
  }

  /** The path text that the page builds from an in-progress string. */
  function PathOf(s: string): string
  {
    Reduce(Split(s, ' '))
  }

  lemma {:induction false} ReduceTokens(pts: seq<Point>)
    ensures Reduce(Tokens(pts)) == Render(pts)
  {
    if pts != [] {
      var n := |pts|;
      var p := pts[n - 1];
      assert Tokens(pts)[..n - 1] == Tokens(pts[..n - 1]);
      ReduceTokens(pts[..n - 1]);
      TokenFields(p);
      assert Fields(Token(p)) == (IntString(p.x), IntString(p.y));
    }
  }

  /**
   * Rendering the in-progress string of a non-empty recording yields `M x0 y0`
   * followed by ` L xi yi` for every later point, in order.
   */
  lemma {:induction false} PathOfEncode(pts: seq<Point>)
    requires pts != []
    ensures PathOf(Encode(pts)) == Render(pts)
  {
    SplitEncode(pts);
    ReduceTokens(pts);
  }

  /**
   * Why the page guards the fold with `if (currentPoints)`: the empty string
   * splits into one empty token, which would render as "M undefined".
   */
  lemma PathOfEmpty()
    ensures PathOf("") == "M undefined"
  {
    assert Split("", ' ') == [""];
    assert Split("", ',') == [""];
    assert Fields("") == ("", "undefined");
  }
}
