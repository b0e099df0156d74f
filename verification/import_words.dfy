/**
 * The word-bank import script (scripts/import_words.mjs): outline items read
 * from a JSON file are renamed to database rows and inserted in groups, so that
 * no single request carries more than 500 rows.
 */
module ImportWords {

  /** The batch size the script inserts with. */
  const BatchSize: nat := 500

  /** The concatenation of `chunks`, in order. */
  function Flatten<T>(chunks: seq<seq<T>>): seq<T>
  {
    if chunks == [] then [] else Flatten(chunks[..|chunks| - 1]) + chunks[|chunks| - 1]
  }

  function Min(a: int, b: int): int
  {
    if a <= b then a else b
  }

  /** `n / d == q` whenever `q * d <= n < q * d + d`. */
  lemma DivBetween(n: int, d: int, q: int)
    requires d >= 1 && q * d <= n < q * d + d
    ensures n / d == q
  {
    var k, r := n / d, n % d;
    assert n == k * d + r && 0 <= r < d;
    var e := k - q;
    assert e * d == n - q * d - r;
    MulSign(e, d);
  }

  lemma MulSign(e: int, d: int)
    ensures d >= 0 && e >= 1 ==> e * d >= d
    ensures d >= 0 && e <= -1 ==> e * d <= -d
  {
  }

  /**
   * `chunk(arr, size)`: consecutive slices of `arr` of `size` elements each, the
   * last one possibly shorter. Laid end to end they give back `arr`; there are
   * `ceil(|arr| / size)` of them, so an empty input gives none. The loop advances
   * by `size`: on a non-empty array it ends only when `size` is at least 1.
   */
  method Chunk<T>(arr: seq<T>, size: nat) returns (out: seq<seq<T>>)
    requires size >= 1
    ensures Flatten(out) == arr
    ensures forall k :: 0 <= k < |out| ==> 0 < |out[k]| <= size
    ensures forall k :: 0 <= k < |out| - 1 ==> |out[k]| == size
    ensures |out| == (|arr| + size - 1) / size
  {
    out := [];
    var i := 0;
    while i < |arr|
      invariant i == |out| * size
      invariant Flatten(out) == arr[..Min(i, |arr|)]
      invariant forall k :: 0 <= k < |out| ==> 0 < |out[k]| <= size
      invariant i <= |arr| ==> forall k :: 0 <= k < |out| ==> |out[k]| == size
      invariant forall k :: 0 <= k < |out| - 1 ==> |out[k]| == size
      invariant |out| > 0 ==> i - size < |arr|
      decreases |arr| - i
    {
      var piece := arr[i..Min(i + size, |arr|)];
      assert arr[..Min(i + size, |arr|)] == arr[..i] + piece;
      ghost var done := out;
      assert (|out| + 1) * size == |out| * size + size;
      out := out + [piece];
      assert out[..|out| - 1] == done;
      i := i + size;
    }
    assert arr[..|arr|] == arr;
    DivBetween(|arr| + size - 1, size, |out|);
  }

  /** One outline item of the JSON file. */
  datatype Item = Item(meanings: seq<string>, paths: seq<string>)

  /** One row of the words table. */
  datatype WordInsert = WordInsert(meanings: seq<string>, referencePaths: seq<string>)

  /**
   * The renaming of the outline items to rows: each item becomes one row, in
   * the same order, keeping its meanings and carrying its paths as the row's
   * reference paths.
   */
  function Rows(items: seq<Item>): (r: seq<WordInsert>)
    ensures |r| == |items|
  {
    if items == [] then []
    else [WordInsert(items[0].meanings, items[0].paths)] + Rows(items[1..])
  }

  /**
   * The renaming keeps the number and the order of the items: row `k` carries
   * the meanings of item `k` unchanged and its paths as the reference paths.
   */
  lemma {:induction false} RowsAt(items: seq<Item>, k: nat)
    requires k < |items|
    ensures |Rows(items)| == |items|
    ensures Rows(items)[k] == WordInsert(items[k].meanings, items[k].paths)
  {
    if k > 0 {
      RowsAt(items[1..], k - 1);
    } else if |items| > 1 {
      RowsAt(items[1..], 0);
    }
  }

  /** Renaming a concatenation renames each part in place. */
  lemma {:induction false} RowsAppend(a: seq<Item>, b: seq<Item>)
    ensures Rows(a + b) == Rows(a) + Rows(b)
  {
    if a == [] {
      assert a + b == b;
    } else {
      assert (a + b)[0] == a[0];
      assert (a + b)[1..] == a[1..] + b;
      RowsAppend(a[1..], b);
    }
  }

  /**
   * The groups the script inserts: the renamed rows cut into chunks of
   * `BatchSize`. Together they are all the rows in item order, and no group is
   * empty or larger than `BatchSize`.
   */
  method Batches(items: seq<Item>) returns (groups: seq<seq<WordInsert>>)
    ensures Flatten(groups) == Rows(items)
    ensures forall k :: 0 <= k < |groups| ==> 0 < |groups[k]| <= BatchSize
    ensures |groups| == (|items| + BatchSize - 1) / BatchSize
  {
    if items != [] {
      RowsAt(items, 0);
    }
    groups := Chunk(Rows(items), BatchSize);
  }
}
