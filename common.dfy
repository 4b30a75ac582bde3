/** Small shared vocabulary of the radar model: optional values, results,
    sequence filtering and the ASCII text operations the tools rely on
    (lower-casing, trimming, splitting on a separator). */
module Common {

  datatype Option<+T> = None | Some(value: T)

  /** An operation that either yields a value or fails with an error, the
      shape of a call that may throw. */
  datatype Result<+R, +E> = Ok(value: R) | Err(error: E)

  // ---------------------------------------------------------------------
  // Sequences
  // ---------------------------------------------------------------------

  /** The elements of `s` that satisfy `p`, in their original order
      (JavaScript's `Array.prototype.filter`). */
  function Filter<T>(s: seq<T>, p: T -> bool): (r: seq<T>)
    ensures |r| <= |s|
    ensures forall i :: 0 <= i < |r| ==> p(r[i]) && r[i] in s
  {
    if s == [] then [] else (if p(s[0]) then [s[0]] else []) + Filter(s[1..], p)
  }

  lemma {:induction false} FilterMember<T>(s: seq<T>, p: T -> bool, x: T)
    ensures x in Filter(s, p) <==> x in s && p(x)
  {
    if s != [] {
      FilterMember(s[1..], p, x);
    }
  }

  lemma {:induction false} FilterAppend<T>(a: seq<T>, b: seq<T>, p: T -> bool)
    ensures Filter(a + b, p) == Filter(a, p) + Filter(b, p)
  {
    if a == [] {
      assert a + b == b;
    } else {
      assert (a + b)[0] == a[0];
      assert (a + b)[1..] == a[1..] + b;
      FilterAppend(a[1..], b, p);
    }
  }

  lemma {:induction false} FilterAll<T>(s: seq<T>, p: T -> bool)
    requires forall i :: 0 <= i < |s| ==> p(s[i])
    ensures Filter(s, p) == s
  {
    if s != [] {
      FilterAll(s[1..], p);
    }
  }

  lemma {:induction false} FilterNone<T>(s: seq<T>, p: T -> bool)
    requires forall i :: 0 <= i < |s| ==> !p(s[i])
    ensures Filter(s, p) == []
  {
    if s != [] {
      FilterNone(s[1..], p);
    }
  }

  lemma {:induction false} FilterMultiset<T>(s: seq<T>, p: T -> bool)
    ensures multiset(Filter(s, p)) <= multiset(s)
  {
    if s != [] {
      FilterMultiset(s[1..], p);
      assert s == [s[0]] + s[1..];
    }
  }

  /** The values of the successful results of `f` over `s`, in order. */
  function OkValues<A, B, E>(s: seq<A>, f: A -> Result<B, E>): (r: seq<B>)
    ensures |r| <= |s|
  {
    if s == [] then []
    else OkValues(s[..|s| - 1], f) + (if f(s[|s| - 1]).Ok? then [f(s[|s| - 1]).value] else [])
  }

  /** How many results of `f` over `s` are errors. */
  function ErrCount<A, B, E>(s: seq<A>, f: A -> Result<B, E>): nat
  {
    if s == [] then 0 else ErrCount(s[..|s| - 1], f) + (if f(s[|s| - 1]).Err? then 1 else 0)
  }

  lemma OkValuesSnoc<A, B, E>(s: seq<A>, f: A -> Result<B, E>, i: nat)
    requires i < |s|
    ensures OkValues(s[..i + 1], f) == OkValues(s[..i], f) + (if f(s[i]).Ok? then [f(s[i]).value] else [])
    ensures ErrCount(s[..i + 1], f) == ErrCount(s[..i], f) + (if f(s[i]).Err? then 1 else 0)
  {
    assert s[..i + 1][..i] == s[..i];
  }

  lemma {:induction false} OkValuesCount<A, B, E>(s: seq<A>, f: A -> Result<B, E>)
    ensures |OkValues(s, f)| + ErrCount(s, f) == |s|
  {
    if s != [] {
      OkValuesCount(s[..|s| - 1], f);
    }
  }

  lemma {:induction false} OkValuesMember<A, B, E>(s: seq<A>, f: A -> Result<B, E>, y: B)
    ensures y in OkValues(s, f) <==> exists i :: 0 <= i < |s| && f(s[i]) == Ok(y)
  {
    if s != [] {
      var init := s[..|s| - 1];
      OkValuesMember(init, f, y);
      assert forall i :: 0 <= i < |init| ==> init[i] == s[i];
    }
  }

  /** `s.map(f)` where `f` may throw: the values of `f` over `s`, in order,
      or the first error `f` raises. */
  function MapAll<A, B, E>(s: seq<A>, f: A -> Result<B, E>): (r: Result<seq<B>, E>)
    ensures r.Ok? ==> |r.value| == |s|
  {
    if s == [] then Ok([])
    else match f(s[0])
      case Err(e) => Err(e)
      case Ok(y) =>
        var rest := MapAll(s[1..], f);
        if rest.Err? then Err(rest.error) else Ok([y] + rest.value)
  }

  /** MapAll succeeds exactly when every call does, and then position k holds
      the value of call k; otherwise its error is that of the first failing
      call. */
  lemma {:induction false} MapAllSpec<A, B, E>(s: seq<A>, f: A -> Result<B, E>)
    ensures MapAll(s, f).Ok? <==> forall k :: 0 <= k < |s| ==> f(s[k]).Ok?
    ensures MapAll(s, f).Ok? ==> forall k :: 0 <= k < |s| ==> MapAll(s, f).value[k] == f(s[k]).value
    ensures MapAll(s, f).Err? ==> exists k :: 0 <= k < |s| && f(s[k]) == Err(MapAll(s, f).error) &&
                                             forall j :: 0 <= j < k ==> f(s[j]).Ok?
  {
    if s != [] {
      var r := MapAll(s, f);
      var tail := s[1..];
      assert forall k :: 1 <= k < |s| ==> s[k] == tail[k - 1];
      if f(s[0]).Ok? {
        MapAllSpec(tail, f);
        var rest := MapAll(tail, f);
        if rest.Err? {
          var k :| 0 <= k < |tail| && f(tail[k]) == Err(rest.error) && forall j :: 0 <= j < k ==> f(tail[j]).Ok?;
          assert f(s[k + 1]) == Err(r.error);
        } else {
          assert forall k :: 1 <= k < |s| ==> r.value[k] == rest.value[k - 1];
        }
      }
    }
  }

  // ---------------------------------------------------------------------
  // Characters
  // ---------------------------------------------------------------------

  /** `\d` of a JavaScript regular expression: the ASCII digits only. */
  predicate IsDigit(c: char) { '0' <= c <= '9' }

  predicate AllDigits(s: string) { forall i :: 0 <= i < |s| ==> IsDigit(s[i]) }

  predicate IsHexDigit(c: char) { IsDigit(c) || 'a' <= c <= 'f' || 'A' <= c <= 'F' }

  /** The character class `[a-z0-9]`. */
  predicate IsLowerAlnum(c: char) { 'a' <= c <= 'z' || IsDigit(c) }

  /** `toLowerCase` restricted to ASCII: only 'A'..'Z' change. */
  function LowerChar(c: char): (r: char)
    ensures 'A' <= c <= 'Z' ==> 'a' <= r <= 'z' && r as int == c as int + 32
    ensures !('A' <= c <= 'Z') ==> r == c
  {
    if 'A' <= c <= 'Z' then (c as int + 32) as char else c
  }

  function Lower(s: string): (r: string)
    ensures |r| == |s|
    ensures forall i :: 0 <= i < |s| ==> r[i] == LowerChar(s[i])
  {
    seq(|s|, i requires 0 <= i < |s| => LowerChar(s[i]))
  }

  /** Case-insensitive equality as `a.toLowerCase() === b.toLowerCase()`. */
  predicate EqualsIgnoreCase(a: string, b: string) { Lower(a) == Lower(b) }

  /** The white space `String.prototype.trim` removes, restricted to ASCII:
      tab, line feed, vertical tab, form feed, carriage return and space. */
  predicate IsSpace(c: char) { 9 <= c as int <= 13 || c == ' ' }

  function TrimStart(s: string): (r: string)
    ensures |r| <= |s| && r == s[|s| - |r|..]
    ensures r == [] || !IsSpace(r[0])
    ensures forall i :: 0 <= i < |s| - |r| ==> IsSpace(s[i])
  {
    if s == [] || !IsSpace(s[0]) then s else TrimStart(s[1..])
  }

  function TrimEnd(s: string): (r: string)
    ensures |r| <= |s| && r == s[..|r|]
    ensures r == [] || !IsSpace(r[|r| - 1])
    ensures forall i :: |r| <= i < |s| ==> IsSpace(s[i])
  {
    if s == [] || !IsSpace(s[|s| - 1]) then s else TrimEnd(s[..|s| - 1])
  }

  /** `String.prototype.trim`: the longest slice of `s` that neither starts
      nor ends with white space, obtained by removing white space only. */
  function Trim(s: string): (r: string)
    ensures |r| <= |s|
    ensures r == [] || (!IsSpace(r[0]) && !IsSpace(r[|r| - 1]))
  {
    TrimEnd(TrimStart(s))
  }

  /** `r` is the slice of `s` starting at `lo`, and every character of `s`
      before or after that slice is white space. */
  predicate SliceAmidSpace(s: string, r: string, lo: int)
  {
    0 <= lo <= |s| - |r| && r == s[lo..lo + |r|] &&
    (forall i :: 0 <= i < lo ==> IsSpace(s[i])) &&
    (forall i :: lo + |r| <= i < |s| ==> IsSpace(s[i]))
  }

  /** Trimming only removes white space from the two ends. */
  lemma TrimIsSlice(s: string)
    ensures exists lo :: SliceAmidSpace(s, Trim(s), lo)
  {
    var t := TrimStart(s);
    SliceOfSlice(s, t, TrimEnd(t));
    assert SliceAmidSpace(s, Trim(s), |s| - |t|);
  }

  lemma SliceOfSlice(s: string, t: string, r: string)
    requires |t| <= |s| && t == s[|s| - |t|..] && forall i :: 0 <= i < |s| - |t| ==> IsSpace(s[i])
    requires |r| <= |t| && r == t[..|r|] && forall i :: |r| <= i < |t| ==> IsSpace(t[i])
    ensures SliceAmidSpace(s, r, |s| - |t|)
  {
    var lo := |s| - |t|;
    forall i | lo + |r| <= i < |s| ensures IsSpace(s[i]) {
      assert s[i] == t[i - lo];
    }
  }

  /** Trimming a string that neither starts nor ends with white space
      returns it unchanged. */
  lemma TrimTrimmed(s: string)
    requires s == [] || (!IsSpace(s[0]) && !IsSpace(s[|s| - 1]))
    ensures Trim(s) == s
  {
  }

  /** Trimming only removes characters. */
  lemma TrimKeepsCharacters(s: string, c: char)
    requires c in Trim(s)
    ensures c in s
  {
    var t := TrimStart(s);
    var r := TrimEnd(t);
    assert Trim(s) == r;
    var i :| 0 <= i < |r| && r[i] == c;
    assert t[i] == c;
    assert s[|s| - |t| + i] == c;
  }

  /** `s.split(sep)`: the pieces between the occurrences of `sep`; always at
      least one piece, and no piece contains `sep`. */
  function Split(s: string, sep: char): (r: seq<string>)
    ensures |r| >= 1
    ensures forall k :: 0 <= k < |r| ==> sep !in r[k]
  {
    if s == [] then [[]]
    else if s[0] == sep then [[]] + Split(s[1..], sep)
    else
      var rest := Split(s[1..], sep);
      [[s[0]] + rest[0]] + rest[1..]
  }

  /** `xs.join(sep)`. */
  function Join(xs: seq<string>, sep: char): string
    requires |xs| >= 1
  {
    if |xs| == 1 then xs[0] else xs[0] + [sep] + Join(xs[1..], sep)
  }

  lemma {:induction false} SplitPrefix(a: string, rest: string, sep: char)
    requires sep !in a
    ensures Split(a + rest, sep) == [a + Split(rest, sep)[0]] + Split(rest, sep)[1..]
  {
    if a != [] {
      assert (a + rest)[0] == a[0];
      assert (a + rest)[1..] == a[1..] + rest;
      SplitPrefix(a[1..], rest, sep);
      assert [a[0]] + (a[1..] + Split(rest, sep)[0]) == a + Split(rest, sep)[0];
    } else {
      var r := Split(rest, sep);
      assert a + rest == rest && a + r[0] == r[0];
      assert r == [r[0]] + r[1..];
    }
  }

  /** Splitting undoes joining when no piece contains the separator. */
  lemma {:induction false} SplitJoin(xs: seq<string>, sep: char)
    requires |xs| >= 1
    requires forall k :: 0 <= k < |xs| ==> sep !in xs[k]
    ensures Split(Join(xs, sep), sep) == xs
  {
    if |xs| == 1 {
      SplitPrefix(xs[0], [], sep);
      assert xs[0] + [] == xs[0];
    } else {
      var tail := Join(xs[1..], sep);
      SplitJoin(xs[1..], sep);
      assert Join(xs, sep) == xs[0] + ([sep] + tail);
      SplitPrefix(xs[0], [sep] + tail, sep);
      assert ([sep] + tail)[0] == sep && ([sep] + tail)[1..] == tail;
      assert Split([sep] + tail, sep) == [[]] + xs[1..];
      assert xs[0] + [] == xs[0];
      assert xs == [xs[0]] + xs[1..];
    }
  }
}
