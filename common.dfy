/** Values and Python/SQLite behaviours shared by the attendance system's components. */
module Common {

  datatype Option<+T> = None | Some(value: T)

  /** The outcome of a Python call that either returns a value or raises an
      exception; `message` is the exception's `str()`. Usable with `:-`. */
  datatype Result<+T> = Ok(value: T) | Raised(message: string) {
    predicate IsFailure() { Raised? }

    function PropagateFailure<U>(): Result<U>
      requires Raised?
    {
      Raised(message)
    }

    function Extract(): T
      requires Ok?
    {
      value
    }
  }

  /** A grayscale image as a list of rows of intensities (a 2-D numpy array). */
  type Gray = seq<seq<int>>

  /** `gray.shape[0]` and `gray.shape[1]`. */
  function Height(g: Gray): nat { |g| }

  function Width(g: Gray): nat { if |g| == 0 then 0 else |g[0]| }

  /** A face template as stored in the `face_encoding` column: the pickled crop. */
  datatype Blob = Pickled(image: Gray)

  /** `pickle.loads`. */
  function Loads(b: Blob): (g: Gray)
    ensures Pickled(g) == b
  {
    b.image
  }

  /** `str()` of the IndexError Python raises for an out-of-range list index. */
  const IndexErrorMessage := "list index out of range"

  /** Python's `xs[i]` on a list: negative indices count from the end. */
  function PyIndex<T>(xs: seq<T>, i: int): (r: Result<T>)
    ensures r.Ok? <==> -|xs| <= i < |xs|
    ensures r.Raised? ==> r.message == IndexErrorMessage
    ensures r.Ok? ==> r.value in xs
    ensures 0 <= i < |xs| ==> r == Ok(xs[i])
  {
    if 0 <= i < |xs| then Ok(xs[i])
    else if -|xs| <= i < 0 then Ok(xs[|xs| + i])
    else Raised(IndexErrorMessage)
  }

  /** Where a Python slice bound `i` lands in a sequence of length `n`. */
  function SliceBound(i: int, n: nat): (k: nat)
    ensures k <= n
    ensures 0 <= i <= n ==> k == i
  {
    if i < 0 then (if n + i < 0 then 0 else n + i)
    else if i > n then n
    else i
  }

  /** Python's (and numpy's) `xs[start:stop]`: bounds are clamped, never an error. */
  function PySlice<T>(xs: seq<T>, start: int, stop: int): (r: seq<T>)
    ensures |r| <= |xs|
    ensures 0 <= start <= stop <= |xs| ==> r == xs[start..stop]
    ensures 0 <= stop <= start ==> r == []
  {
    var lo, hi := SliceBound(start, |xs|), SliceBound(stop, |xs|);
    if lo < hi then xs[lo..hi] else []
  }

  /** Index of the first element satisfying `p`, as a `fetchone()` after a `WHERE`. */
  function FirstIndex<T>(s: seq<T>, p: T -> bool): (r: Option<nat>)
    ensures r.Some? ==> r.value < |s| && p(s[r.value]) && forall j :: 0 <= j < r.value ==> !p(s[j])
    ensures r.None? ==> forall j :: 0 <= j < |s| ==> !p(s[j])
  {
    if |s| == 0 then None
    else if p(s[0]) then Some(0)
    else match FirstIndex(s[1..], p)
      case None => None
      case Some(i) => Some(i + 1)
  }

  /** Index of the first occurrence of `c` in `s`. */
  function IndexOf(s: string, c: char): (r: Option<nat>)
    ensures r.Some? ==> r.value < |s| && s[r.value] == c && c !in s[..r.value]
    ensures r.None? ==> c !in s
  {
    if |s| == 0 then None
    else if s[0] == c then Some(0)
    else match IndexOf(s[1..], c)
      case None => None
      case Some(i) => Some(i + 1)
  }

  /** SQLite's BINARY collation on TEXT: lexicographic comparison of the UTF-8
      bytes, which orders code points the same way; a proper prefix comes first. */
  predicate TextLess(a: string, b: string)
  {
    if |a| == 0 then |b| > 0
    else if |b| == 0 then false
    else if a[0] != b[0] then a[0] < b[0]
    else TextLess(a[1..], b[1..])
  }

  predicate TextLessEq(a: string, b: string) { a == b || TextLess(a, b) }

  lemma {:induction false} TextLessIrreflexive(a: string)
    ensures !TextLess(a, a)
  {
    if |a| > 0 { TextLessIrreflexive(a[1..]); }
  }

  lemma {:induction false} TextLessTransitive(a: string, b: string, c: string)
    requires TextLess(a, b) && TextLess(b, c)
    ensures TextLess(a, c)
  {
    if |a| > 0 && a[0] == b[0] && b[0] == c[0] {
      TextLessTransitive(a[1..], b[1..], c[1..]);
    }
  }

  /** Any two texts are equal or ordered one way round, and never both ways. */
  lemma {:induction false} TextLessTotal(a: string, b: string)
    ensures a == b || TextLess(a, b) || TextLess(b, a)
    ensures !(TextLess(a, b) && TextLess(b, a))
  {
    if |a| > 0 && |b| > 0 && a[0] == b[0] {
      TextLessTotal(a[1..], b[1..]);
      if a[1..] == b[1..] {
        assert a == [a[0]] + a[1..] && b == [b[0]] + b[1..];
      }
    }
  }
}
