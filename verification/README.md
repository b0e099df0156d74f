# Teeline collector: stroke engine model

A Dafny model of the freehand stroke engine of the Teeline collector page and of
the batching helper of its word-import script.

The page shows a reference shorthand outline for a word and lets the user copy
it with a pointer. A gesture is recorded as a string of `"x,y"` tokens joined by
single spaces: pointer-down starts it with one point, each pointer-move appends
one. The red preview and, on pointer-up (or pointer-leave), the finalized stroke
are drawn from that string by splitting it and folding the pieces into an SVG
path `M x0 y0 L x1 y1 …`. Finalized strokes accumulate until Clear, a new word,
or a successful save. The reference outline is shown through a viewBox fitted
around its measured bounding box with a 16-unit pad. The import script renames
JSON outline items to database rows and sends them in groups of at most 500.

Modules:

- `Wrappers` (`wrappers.dfy`): `Option`, standing for JavaScript's null.
- `Text` (`text.dfy`): `split` with a one-character separator, with JavaScript's
  semantics (`"".split(' ')` is `[""]`); the decimal text that `${n}` gives for an
  integer; a decimal reader proved to invert it.
- `Stroke` (`stroke.dfy`): points, path commands, the in-progress encoding
  (`Encode`), its reading back (`Decode`), the point-level rendering (`Render`),
  and the string-level split-and-reduce of the page (`PathOf`). The central
  results are that `PathOf(Encode(pts)) == Render(pts)` for every non-empty
  recording, and that the encoding is lossless and holds one token per event.
- `Viewport` (`viewport.dfy`): the viewBox arithmetic over `real`.
- `Page` (`page.dfy`): class `Home` holds the page state (`current`, `userPaths`,
  `currentPoints`, `drawing`, `viewBox`) and one method per handler. A ghost
  field `points` holds the recorded points, and `Valid()` ties it to
  `currentPoints`. `Valid()` also says that no points are held while no gesture
  is active; every handler keeps both. Database calls are replaced by the replies
  they give, passed in as parameters.
- `ImportWords` (`import_words.dfy`): `Chunk` as an imperative loop proved
  against its partition properties, and the field renaming `Rows`.

Two behaviours of the code worth stating explicitly:

- A pointer-down followed by pointer-up with no move does produce a stroke. The
  stroke has one point and renders as `M x y`, because pointer-down already
  records the first point (`Page.TapAfterStroke`).
- A load that reports an error still shows the first returned row if there is
  one. Only an empty or null `data` leaves the word unchanged (`Page.NextWord`).

## Model

| member | source | states |
|---|---|---|
| `Text.Split` | app/page.tsx:69-71 | `split` on one character gives one more piece than there are separators, and no piece holds the separator |
| `Text.SplitConcat` | app/page.tsx:69 | splitting `a + sep + b` gives the pieces of `a` followed by the pieces of `b` |
| `Text.SplitAbsent` | app/page.tsx:71 | a string without the separator splits into itself alone |
| `Text.IntString` | app/page.tsx:56 | the text of an integer coordinate is non-empty and holds only digits, with at most a leading minus sign |
| `Text.ParseIntString` | app/page.tsx:87 | the decimal text of a rounded coordinate reads back to the same integer |
| `Stroke.Token` | app/page.tsx:56-63 | the token `${p.x},${p.y}` of one event; `TokenFields` states that it holds no space and splits on ',' into exactly the two coordinate texts |
| `Stroke.Encode` | app/page.tsx:56-64 | the in-progress string is empty exactly when no point has been recorded |
| `Stroke.TokenFields` | app/page.tsx:56 | a token `x,y` holds no space and splits on ',' into exactly the two coordinates' texts |
| `Stroke.SplitEncode` | app/page.tsx:69 | splitting the in-progress string on ' ' gives one token per recorded point, in recording order |
| `Stroke.DecodeEncode` | app/page.tsx:62-71 | the token count equals the number of recorded points, and splitting on ' ' then ',' and reading the numbers recovers the points in order |
| `Stroke.EncodeInjective` | app/page.tsx:56-64 | two recordings that give the same in-progress string are the same points |
| `Stroke.RenderPrefix` | app/page.tsx:70-73 | an empty recording renders as ""; the rendering of a recording is a prefix of the rendering of every longer recording that starts with it, so the preview only grows by appending |
| `Stroke.RenderCounts` | app/page.tsx:70-73 | a rendered stroke of n+1 points holds exactly one `M` and exactly n `L` commands |
| `Stroke.PathOf` | app/page.tsx:69-73 | the split-and-reduce shared by finalization and the preview at lines 147-150, with its helpers `Reduce`, `StepText` and `Fields`; `PathOfEncode` and `PathOfEmpty` state what it yields |
| `Stroke.PathOfEncode` | app/page.tsx:69-73 | folding the split in-progress string gives exactly the rendering of the recorded points |
| `Stroke.PathOfEmpty` | app/page.tsx:68-73 | without the `if (currentPoints)` guard the empty string would render as `M undefined` |
| `Viewport.Fit` | app/page.tsx:40-43 | the viewBox origin is the box origin less the pad; each extent is at least 1 and at least the padded extent, and equals one of them; a box of non-negative size sits inside with the pad on every side |
| `Viewport.FitZeroWidth` | app/page.tsx:40-43 | a box at (10, 20) of size 0 x 50 is shown through `-6 4 32 82` |
| `Page.NextWord` | app/page.tsx:22-24 | the word shown after a reply is its first row if it brought any, otherwise the word shown before |
| `Page.Home.constructor` | app/page.tsx:8-18 | the page starts with no word, no strokes, an empty stroke in progress, no gesture and viewBox `0 0 400 140` |
| `Page.Home.Preview` | app/page.tsx:145-150 | the red preview exists exactly while points are recorded and is their rendering |
| `Page.Home.LoadWord` | app/page.tsx:21-27 | the word is replaced only by a reply with rows; the strokes and the stroke in progress are always emptied |
| `Page.Home.PointerDown` | app/page.tsx:53-57 | a gesture becomes active and the stroke in progress is exactly the one new point, earlier points discarded |
| `Page.Home.PointerMove` | app/page.tsx:59-65 | while a gesture is active exactly one point is appended at the end, starting a fresh one-point string when the string was empty; otherwise nothing changes |
| `Page.Home.PointerUp` | app/page.tsx:67-78 | a non-empty stroke appends exactly one path after the unchanged earlier ones, the same text as its preview, and the string is cleared; an empty one appends nothing; the gesture ends |
| `Page.Home.PointerLeave` | app/page.tsx:137-138 | leaving the surface has the same effect as releasing the pointer |
| `Page.Home.Clear` | app/page.tsx:159 | the strokes and the stroke in progress are emptied; the gesture flag and the word are untouched |
| `Page.Home.Remeasure` | app/page.tsx:33-47 | no word or no mounted group leaves the viewBox; a throwing measurement sets `0 0 400 140`; otherwise the viewBox is fitted around the box |
| `Page.Home.Submit` | app/page.tsx:91-105 | refused, with nothing changed, when no word is shown or no stroke is drawn; otherwise the row sent is the word and all strokes in drawing order; a failed insert keeps the drawing, a successful one loads the next word and clears the drawing |
| `Page.DrawGesture` | app/page.tsx:135-137 | down, any number of moves, up: the new path renders every point in event order, with one line-to per move |
| `Page.TapAfterStroke` | app/page.tsx:53-78 | a stroke with two moves and then a tap give two paths, the second `M x y`; saving sends both in order and leaves an empty drawing |
| `ImportWords.Chunk` | scripts/import_words.mjs:16-20 | for a size of at least 1, the chunks laid end to end give back the array; each is non-empty and at most `size` long, all but the last exactly `size`; there are ceil(n / size) of them for an array of n elements, none for an empty array |
| `ImportWords.Rows` | scripts/import_words.mjs:27-30 | the renaming of items to rows keeps the number of items; `RowsAt` and `RowsAppend` state the rest |
| `ImportWords.RowsAt` | scripts/import_words.mjs:27-30 | the renaming keeps the number and order of the items; row k copies item k's meanings and takes its paths as the reference paths |
| `ImportWords.RowsAppend` | scripts/import_words.mjs:27-30 | renaming a concatenation renames each part in place |
| `ImportWords.Batches` | scripts/import_words.mjs:27-32 | the groups inserted are the renamed rows in item order, each non-empty and at most 500 long, ceil(n / 500) of them for n items |

## Left out

- The pointer-to-surface mapping `cursor` (app/page.tsx:80-88) inverts the screen transform matrix in floating point. Its rounded result is a `Point` passed to the handlers.
- The frame scheduling of the measurement, `requestAnimationFrame` and `cancelAnimationFrame` (app/page.tsx:35, 49), is left out. `Remeasure` is the synchronous body of the frame callback, and the word test that the source makes when it schedules is made when the callback runs.
- `getBBox` is a DOM measurement. It is the `Measurement` input: the group is missing, the call throws, or it yields a box.
- The viewBox is kept as its four numbers. Formatting them into a string (app/page.tsx:44) is JavaScript float printing and is not modelled. Box and viewBox numbers are `real`, not IEEE doubles.
- `Text.IntString`: follows JavaScript's integer printing only for magnitudes below 10^21. Larger numbers print in exponent notation, which is not modelled; pointer coordinates never get that large.
- The Supabase calls (`rpc`, `insert`, `createClient`), `console` and `alert` are foreign services and output. The RPC is its `RpcReply`. The insert is its success flag. The user-agent client id is a parameter. An RPC error is only logged, so `RpcReply.failed` changes nothing.
- The awaits inside `submit` and `loadWord` are not modelled. No pointer event is modelled as arriving while a request is pending.
- The initial `loadWord` on mount (app/page.tsx:29) is a separate call: the constructor builds the empty page and a caller runs `LoadWord`.
- React's batched, asynchronous state updates are not modelled, and neither is `pointerUp` reading `currentPoints` from its render closure. Handlers are sequential updates on one object.
- JSX rendering, apart from the path text of the finalized strokes and the preview, is left out.
- `ImportWords.Chunk`: requires `size >= 1`. With an empty array the source returns `[]` for any size, but on a non-empty array a size of 0 or less never advances the loop, which then never ends. The only call site passes 500 (`ImportWords.Batches`). Non-integer sizes are not modelled.
- The import script's file reading, `JSON.parse`, environment checks, `process.exit` and the insert loop over chunks (scripts/import_words.mjs:5-13, 22-42) are I/O. Extra JSON keys of an item are not modelled, since the renaming drops them.
