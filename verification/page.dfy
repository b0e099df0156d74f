/**
 * The collector page (app/page.tsx): the state it keeps for one word and the
 * handlers that change that state, one event at a time.
 *
 * The database is not modelled: the random-word RPC and the insert of a
 * drawing appear only as the replies they give, passed in by the caller.
 */
module Page {
  import opened Wrappers
  import opened Stroke
  import opened Viewport

  /** A word of the word bank: its id, its meanings and its reference outline paths. */
  datatype WordRow = WordRow(id: string, meanings: seq<string>, referencePaths: seq<string>)

  /** The reply of the random-word RPC: rows (or null) and whether an error was reported. */
  datatype RpcReply = RpcReply(data: Option<seq<WordRow>>, failed: bool)

  /** The row inserted into the drawings table. */
  datatype DrawingRow = DrawingRow(
    wordId: string,
    meanings: seq<string>,
    referencePaths: seq<string>,
    userPaths: seq<string>,
    clientId: Option<string>)

  datatype SubmitOutcome =
    | Refused                       // nothing to submit: no word or no stroke
    | SaveFailed(row: DrawingRow)   // the insert reported an error
    | Saved(row: DrawingRow)        // the insert succeeded and the next word was loaded

  /**
   * The word shown after a reply: its first row when it brought at least one,
   * otherwise the word shown before (an error is only logged).
   */
  function NextWord(shown: Option<WordRow>, reply: RpcReply): (w: Option<WordRow>)
    ensures reply.data.None? ==> w == shown
    ensures reply.data.Some? && reply.data.value == [] ==> w == shown
    ensures reply.data.Some? && reply.data.value != [] ==> w == Some(reply.data.value[0])
  {
    match reply.data
    case Some(rows) => if |rows| > 0 then Some(rows[0]) else shown
    case None => shown
  }

  class Home {
    /** The word being practised. */
    var current: Option<WordRow>
    /** Finalized strokes, in the order they were drawn. */
    var userPaths: seq<string>
    /** The stroke in progress: `"x,y"` tokens joined by single spaces. */
    var currentPoints: string
    /** Whether a gesture is active. */
    var drawing: bool
    /** The viewBox of the reference outline. */
    var viewBox: ViewBox
    /** The points of the stroke in progress, in recording order. */
    ghost var points: seq<Point>

    /**
     * The in-progress string encodes exactly the recorded points, and no points
     * are held while no gesture is active.
     */
    ghost predicate Valid()
      reads this
    {
      currentPoints == Encode(points) && (!drawing ==> points == [])
    }

    constructor ()
      ensures Valid()
      ensures current == None && userPaths == [] && currentPoints == "" && !drawing
      ensures viewBox == Fallback && points == []
    {
      current := None;
      userPaths := [];
      currentPoints := "";
      drawing := false;
      viewBox := Fallback;
      points := [];
    }

    /** The red preview of the stroke in progress, drawn only while it has points. */
    function Preview(): (r: Option<string>)
      reads this
      requires Valid()
      ensures r.None? <==> points == []
      ensures r.Some? ==> r.value == Render(points)
    {
      if currentPoints != "" then
        PathOfEncode(points);
        Some(PathOf(currentPoints))
      else None
    }

    /** `loadWord`: shows the next word if the reply has one, and always clears the drawing. */
    method LoadWord(reply: RpcReply)
      requires Valid()
      modifies this
      ensures Valid()
      ensures current == NextWord(old(current), reply)
      ensures userPaths == [] && currentPoints == "" && points == []
      ensures drawing == old(drawing) && viewBox == old(viewBox)
    {
      if reply.data.Some? && |reply.data.value| > 0 {
        current := Some(reply.data.value[0]);
      }
      userPaths := [];
      currentPoints := "";
      points := [];
    }

    /** `pointerDown`: starts a gesture whose stroke is exactly the one new point. */
    method PointerDown(p: Point)
      requires Valid()
      modifies this
      ensures Valid()
      ensures drawing && points == [p] && currentPoints == Token(p)
      ensures userPaths == old(userPaths) && current == old(current) && viewBox == old(viewBox)
    {
      drawing := true;
      currentPoints := Token(p);
      points := [p];
    }

    /**
     * `pointerMove`: while a gesture is active, records one more point at the
     * end (starting a fresh one-point string if the stroke was cleared); outside
     * a gesture it changes nothing.
     */
    method PointerMove(p: Point)
      requires Valid()
      modifies this
      ensures Valid()
      ensures old(drawing) ==> points == old(points) + [p]
      ensures old(drawing) && old(currentPoints) == "" ==> currentPoints == Token(p)
      ensures old(drawing) && old(currentPoints) != "" ==> currentPoints == old(currentPoints) + " " + Token(p)
      ensures !old(drawing) ==> points == old(points) && currentPoints == old(currentPoints)
      ensures drawing == old(drawing) && userPaths == old(userPaths)
      ensures current == old(current) && viewBox == old(viewBox)
    {
      if !drawing {
        return;
      }
      if currentPoints != "" {
        EncodeSnoc(points, p);
        currentPoints := currentPoints + " " + Token(p);
      } else {
        currentPoints := Token(p);
      }
      points := points + [p];
    }

    /**
     * `pointerUp`: a stroke in progress with at least one point becomes one more
     * finalized path, rendered exactly as its preview was, after the earlier ones;
     * an empty stroke adds nothing. Either way the gesture ends with no points.
     */
    method PointerUp()
      requires Valid()
      modifies this
      ensures Valid()
      ensures old(points) != [] ==> userPaths == old(userPaths) + [Render(old(points))]
      ensures old(points) != [] ==> userPaths == old(userPaths) + [old(Preview()).value]
      ensures old(points) == [] ==> userPaths == old(userPaths)
      ensures !drawing && currentPoints == "" && points == []
      ensures current == old(current) && viewBox == old(viewBox)
    {
      if currentPoints != "" {
        PathOfEncode(points);
        var path := PathOf(currentPoints);
        userPaths := userPaths + [path];
        currentPoints := "";
        points := [];
      }
      drawing := false;
    }

    /** The pointer leaving the surface ends the gesture exactly as releasing it does. */
    method PointerLeave()
      requires Valid()
      modifies this
      ensures Valid()
      ensures old(points) != [] ==> userPaths == old(userPaths) + [Render(old(points))]
      ensures old(points) == [] ==> userPaths == old(userPaths)
      ensures !drawing && currentPoints == "" && points == []
      ensures current == old(current) && viewBox == old(viewBox)
    {
      PointerUp();
    }

    /** The Clear button: empties the strokes and the stroke in progress, nothing else. */
    method Clear()
      requires Valid()
      modifies this
      ensures Valid()
      ensures userPaths == [] && currentPoints == "" && points == []
      ensures drawing == old(drawing) && current == old(current) && viewBox == old(viewBox)
    {
      userPaths := [];
      currentPoints := "";
      points := [];
    }

    /**
     * The measurement run after the word changes: nothing while no word is shown
     * or the group is not mounted, the fixed fallback when measuring throws, and
     * otherwise the viewBox fitted around the measured box.
     */
    method Remeasure(m: Measurement)
      requires Valid()
      modifies this`viewBox
      ensures Valid()
      ensures current.None? || m.NoGroup? ==> viewBox == old(viewBox)
      ensures current.Some? && m.Threw? ==> viewBox == Fallback
      ensures current.Some? && m.Measured? ==> viewBox == Fit(m.box)
    {
      if current.None? {
        return;
      }
      match m
      case NoGroup =>
      case Threw => viewBox := Fallback;
      case Measured(box) => viewBox := Fit(box);
    }

    /**
     * `submit`: refuses without a word or without a stroke; otherwise inserts the
     * word and every finalized stroke in drawing order. A failed insert keeps the
     * drawing for a retry; a successful one loads the next word, which clears it.
     * `insertOk` is the insert's outcome and `reply` the reply of the load after it.
     */
    method Submit(clientId: Option<string>, insertOk: bool, reply: RpcReply) returns (outcome: SubmitOutcome)
      requires Valid()
      modifies this
      ensures Valid()
      ensures outcome.Refused? <==> old(current).None? || old(userPaths) == []
      ensures outcome.Saved? <==> old(current).Some? && old(userPaths) != [] && insertOk
      ensures !outcome.Refused? ==>
        outcome.row == DrawingRow(old(current).value.id, old(current).value.meanings,
                                  old(current).value.referencePaths, old(userPaths), clientId)
      ensures !outcome.Saved? ==>
        current == old(current) && userPaths == old(userPaths) && points == old(points) &&
        currentPoints == old(currentPoints)
      ensures outcome.Saved? ==>
        current == NextWord(old(current), reply) && userPaths == [] && currentPoints == "" && points == []
      ensures drawing == old(drawing) && viewBox == old(viewBox)
    {
      if current.None? || |userPaths| == 0 {
        return Refused;
      }
      var w := current.value;
      var row := DrawingRow(w.id, w.meanings, w.referencePaths, userPaths, clientId);
      if !insertOk {
        return SaveFailed(row);
      }
      LoadWord(reply);
      outcome := Saved(row);
    }
  }

  /**
   * One gesture: a pointer-down at `first`, a pointer-move for each of `moves`,
   * then a pointer-up. However many moves there are, every one of them is kept
   * in order: the finalized path is the rendering of all the points, with one
   * line-to per move.
   */
  method DrawGesture(page: Home, first: Point, moves: seq<Point>)
    requires page.Valid()
    modifies page
    ensures page.Valid()
    ensures page.userPaths == old(page.userPaths) + [Render([first] + moves)]
    ensures Text.Count(Render([first] + moves), 'L') == |moves|
    ensures !page.drawing && page.current == old(page.current)
  {
    page.PointerDown(first);
    for k := 0 to |moves|
      invariant page.Valid()
      invariant page.drawing && page.points == [first] + moves[..k]
      invariant page.userPaths == old(page.userPaths) && page.current == old(page.current)
    {
      page.PointerMove(moves[k]);
      assert moves[..k + 1] == moves[..k] + [moves[k]];
    }
    assert moves[..|moves|] == moves;
    page.PointerUp();
    RenderCounts([first] + moves);
  }

  /**
   * A word is loaded, a stroke is drawn with two moves, then the surface is
   * tapped without moving: the tap is kept as a one-point stroke `M x y`.
   * Saving sends both strokes in drawing order and leaves the next word with an
   * empty drawing.
   */
  method TapAfterStroke(w: WordRow, next: WordRow, a: Point, b: Point, c: Point, d: Point)
    returns (drawn: seq<string>, outcome: SubmitOutcome, after: seq<string>)
    ensures drawn == [Render([a, b, c]), "M" + Text.IntString(d.x) + " " + Text.IntString(d.y)]
    ensures outcome == Saved(DrawingRow(w.id, w.meanings, w.referencePaths, drawn, None))
    ensures after == []
  {
    var page := new Home();
    page.LoadWord(RpcReply(Some([w]), false));
    DrawGesture(page, a, [b, c]);
    assert [a] + [b, c] == [a, b, c];
    assert page.userPaths == [Render([a, b, c])];
    DrawGesture(page, d, []);
    assert [d] + [] == [d] == [] + [d];
    RenderSnoc([], d);
    assert Render([d]) == "M" + Text.IntString(d.x) + " " + Text.IntString(d.y);
    assert page.userPaths == [Render([a, b, c]), Render([d])];
    drawn := page.userPaths;
    outcome := page.Submit(None, true, RpcReply(Some([next]), false));
    after := page.userPaths;
  }
}
