/** The pieces of Python behaviour the pipeline's core relies on: the `False`
    sentinel its functions return, the IndexError that indexing raises, clamped
    slicing, `str.startswith`, and the two forms of `str.split`. */
module PyRuntime {

  datatype Option<T> = None | Some(value: T)

  /** What a Python call hands back to its caller: a value, the `False`
      sentinel, or an IndexError that propagates. */
  datatype Ret<T> = Returned(value: T) | ReturnedFalse | RaisedIndexError

  /** `s[i:j]` for non-negative bounds: both bounds are clamped to the length,
      and an empty slice results when they cross. */
  function Slice(s: string, i: nat, j: nat): (r: string)
    ensures |r| <= |s| && |r| <= j
    ensures j <= |s| && i <= j ==> |r| == j - i
    ensures i <= |s| <= j ==> |r| == |s| - i
    ensures j <= i || |s| <= i ==> r == []
    ensures forall k :: 0 <= k < |r| ==> i + k < |s| && r[k] == s[i + k]
  {
    var hi := if j <= |s| then j else |s|;
    if i < hi then s[i..hi] else []
  }

  predicate StartsWith(s: string, prefix: string) {
    |prefix| <= |s| && s[..|prefix|] == prefix
  }

  /** The characters `str.isspace` accepts, on which `str.split()` cuts. */
  predicate IsSpace(c: char) {
    c == ' ' || c == '\t' || c == '\n' || c == '\r' || c == '\U{000B}' || c == '\U{000C}'
    || ('\U{001C}' <= c <= '\U{001F}') || c == '\U{0085}' || c == '\U{00A0}' || c == '\U{1680}'
    || ('\U{2000}' <= c <= '\U{200A}') || c == '\U{2028}' || c == '\U{2029}'
    || c == '\U{202F}' || c == '\U{205F}' || c == '\U{3000}'
  }

  /** Length of the run of non-space characters that starts `s`. */
  function WordLen(s: string): (n: nat)
    ensures n <= |s|
  {
    if s == [] || IsSpace(s[0]) then 0 else 1 + WordLen(s[1..])
  }

  /** The run is non-empty when `s` starts with a non-space character, holds
      no space, and ends at a space or at the end of `s`. */
  lemma {:induction false} WordLenIsRun(s: string)
    ensures s != [] && !IsSpace(s[0]) ==> WordLen(s) > 0
    ensures forall k :: 0 <= k < WordLen(s) ==> !IsSpace(s[k])
    ensures WordLen(s) < |s| ==> IsSpace(s[WordLen(s)])
    decreases |s|
  {
    if s != [] && !IsSpace(s[0]) {
      WordLenIsRun(s[1..]);
      assert forall k :: 1 <= k < WordLen(s) ==> s[k] == s[1..][k - 1];
    }
  }

  /** `s.split()`: the maximal runs of non-space characters, in order. */
  function Words(s: string): seq<string>
    decreases |s|
  {
    if s == [] then []
    else if IsSpace(s[0]) then Words(s[1..])
    else
      var n := WordLen(s);
      [s[..n]] + Words(s[n..])
  }

  /** Every item of `s.split()` is a non-empty run without spaces. */
  lemma {:induction false} WordsHaveNoSpace(s: string)
    ensures forall w :: w in Words(s) ==> |w| > 0 && forall c :: c in w ==> !IsSpace(c)
    decreases |s|
  {
    if s != [] {
      if IsSpace(s[0]) {
        WordsHaveNoSpace(s[1..]);
      } else {
        var n := WordLen(s);
        WordLenIsRun(s);
        WordsHaveNoSpace(s[n..]);
        assert Words(s) == [s[..n]] + Words(s[n..]);
      }
    }
  }

  /** The non-space characters of `s`, in order. */
  function NonSpace(s: string): string {
    if s == [] then [] else (if IsSpace(s[0]) then [] else [s[0]]) + NonSpace(s[1..])
  }

  function Concat(ws: seq<string>): string {
    if ws == [] then [] else ws[0] + Concat(ws[1..])
  }

  lemma {:induction false} NonSpaceAppend(a: string, b: string)
    ensures NonSpace(a + b) == NonSpace(a) + NonSpace(b)
    decreases |a|
  {
    if a == [] {
      assert a + b == b;
    } else {
      assert (a + b)[0] == a[0];
      assert (a + b)[1..] == a[1..] + b;
      NonSpaceAppend(a[1..], b);
    }
  }

  lemma {:induction false} NonSpaceOfWord(w: string)
    requires forall k :: 0 <= k < |w| ==> !IsSpace(w[k])
    ensures NonSpace(w) == w
    decreases |w|
  {
    if w != [] {
      NonSpaceOfWord(w[1..]);
    }
  }

  /** `str.split()` loses exactly the whitespace: gluing the words back
      together gives the non-space characters of the line. */
  lemma {:induction false} WordsKeepNonSpace(s: string)
    ensures Concat(Words(s)) == NonSpace(s)
    decreases |s|
  {
    if s == [] {
    } else if IsSpace(s[0]) {
      WordsKeepNonSpace(s[1..]);
    } else {
      var n := WordLen(s);
      WordLenIsRun(s);
      assert s == s[..n] + s[n..];
      NonSpaceAppend(s[..n], s[n..]);
      NonSpaceOfWord(s[..n]);
      WordsKeepNonSpace(s[n..]);
      assert Words(s) == [s[..n]] + Words(s[n..]);
      assert Words(s)[1..] == Words(s[n..]);
    }
  }

  /** Whether `sep` occurs in `s` at position `k`. */
  predicate OccursAt(s: string, sep: string, k: nat) {
    k + |sep| <= |s| && s[k..k + |sep|] == sep
  }

  /** The first position at or after `from` where `sep` occurs, as `str.find`. */
  function Find(s: string, sep: string, from: nat): (r: Option<nat>)
    requires |sep| > 0
    ensures r.Some? ==> from <= r.value && OccursAt(s, sep, r.value)
    ensures r.Some? ==> forall k :: from <= k < r.value ==> !OccursAt(s, sep, k)
    ensures r.None? ==> forall k :: from <= k ==> !OccursAt(s, sep, k)
    decreases |s| - from
  {
    if from + |sep| > |s| then None
    else if s[from..from + |sep|] == sep then Some(from)
    else Find(s, sep, from + 1)
  }

  /** `s.split(sep)`: cut at each occurrence of `sep`, leftmost first. */
  function SplitSep(s: string, sep: string): (pieces: seq<string>)
    requires |sep| > 0
    ensures |pieces| >= 1
    decreases |s|
  {
    match Find(s, sep, 0)
    case None => [s]
    case Some(i) => [s[..i]] + SplitSep(s[i + |sep|..], sep)
  }

  /** No piece of `s.split(sep)` contains `sep`. */
  lemma {:induction false} SplitSepAvoidsSep(s: string, sep: string)
    requires |sep| > 0
    ensures forall p :: p in SplitSep(s, sep) ==> forall k: nat :: !OccursAt(p, sep, k)
    decreases |s|
  {
    match Find(s, sep, 0)
    case None =>
      assert SplitSep(s, sep) == [s];
    case Some(i) =>
      PrefixAvoids(s, sep, i);
      SplitSepAvoidsSep(s[i + |sep|..], sep);
      assert SplitSep(s, sep) == [s[..i]] + SplitSep(s[i + |sep|..], sep);
  }

  lemma PrefixAvoids(s: string, sep: string, i: nat)
    requires |sep| > 0 && i <= |s|
    requires forall k :: 0 <= k < i ==> !OccursAt(s, sep, k)
    ensures forall k: nat :: !OccursAt(s[..i], sep, k)
  {
    forall k: nat | OccursAt(s[..i], sep, k)
      ensures false
    {
      assert s[..i][k..k + |sep|] == s[k..k + |sep|];
      assert OccursAt(s, sep, k);
    }
  }

  /** `sep.join(pieces)`. */
  function Join(pieces: seq<string>, sep: string): string {
    if |pieces| == 0 then []
    else if |pieces| == 1 then pieces[0]
    else pieces[0] + sep + Join(pieces[1..], sep)
  }

  /** Splitting and re-joining on the same separator gives the string back. */
  lemma {:induction false} SplitJoin(s: string, sep: string)
    requires |sep| > 0
    ensures Join(SplitSep(s, sep), sep) == s
    decreases |s|
  {
    match Find(s, sep, 0)
    case None =>
    case Some(i) =>
      var rest := s[i + |sep|..];
      var tail := SplitSep(rest, sep);
      SplitJoin(rest, sep);
      var pieces := [s[..i]] + tail;
      assert SplitSep(s, sep) == pieces;
      assert pieces[1..] == tail;
      assert Join(pieces, sep) == s[..i] + sep + Join(tail, sep);
      assert s[i..i + |sep|] == sep;
      assert s == s[..i] + s[i..i + |sep|] + rest;
  }
}
