/**
 Searching and splitting strings, as in HttpParser.cpp.  A string is a sequence of characters, one per byte.
 */
module Text {
  import opened Options

  const CRLF: string := "\r\n"
  const SP: string := " "
  const COLON: string := ":"

  /** d occurs in s at position i. */
  predicate MatchAt(s: string, d: string, i: nat) {
    i + |d| <= |s| && s[i..i + |d|] == d
  }

  predicate Contains(s: string, d: string) {
    exists i: nat :: i <= |s| && MatchAt(s, d, i)
  }

  /** std::string::find: the first occurrence of d at or after `from`, or npos. */
  function Find(s: string, d: string, from: nat): (r: Option<nat>)
    ensures r.Some? ==> from <= r.value && r.value + |d| <= |s|
    decreases |s| - from
  {
    if from + |d| > |s| then None
    else if s[from..from + |d|] == d then Some(from)
    else Find(s, d, from + 1)
  }

  lemma {:induction false} FindIsFirst(s: string, d: string, from: nat)
    ensures match Find(s, d, from)
            case None => forall k: nat :: from <= k ==> !MatchAt(s, d, k)
            case Some(i) => MatchAt(s, d, i) && forall k: nat :: from <= k < i ==> !MatchAt(s, d, k)
    decreases |s| - from
  {
    if from + |d| <= |s| && s[from..from + |d|] != d { FindIsFirst(s, d, from + 1); }
  }

  /** The search finds position i when d occurs there and nowhere before. */
  lemma FindsAt(s: string, d: string, from: nat, i: nat)
    requires from <= i && MatchAt(s, d, i) && forall k: nat :: from <= k < i ==> !MatchAt(s, d, k)
    ensures Find(s, d, from) == Some(i)
  {
    FindIsFirst(s, d, from);
  }

  /** No proper prefix of d is also a suffix of it, so two occurrences of d cannot overlap. */
  predicate BorderFree(d: string) {
    forall n: nat :: 0 < n < |d| ==> d[..n] != d[|d| - n..]
  }

  lemma Delimiters()
    ensures BorderFree(CRLF) && BorderFree(SP) && BorderFree(COLON)
  {
    assert CRLF[..1] == "\r" && CRLF[1..] == "\n";
  }

  /** What `split` returns: the nonempty pieces of s between occurrences of d, taken from the left. */
  function Split(s: string, d: string): seq<string>
    requires |d| > 0
  {
    SplitFrom(s, d, 0)
  }

  /** The pieces of s from position `prev` on. */
  function SplitFrom(s: string, d: string, prev: nat): seq<string>
    requires |d| > 0 && prev <= |s|
    decreases |s| - prev
  {
    match Find(s, d, prev)
    case None => Piece(s[prev..])
    case Some(i) => Piece(s[prev..i]) + SplitFrom(s, d, i + |d|)
  }

  function Piece(t: string): seq<string> {
    if |t| == 0 then [] else [t]
  }

  /** A search that starts inside s is a search of the rest of s: position p of s is position j of t. */
  lemma {:induction false} FindShift(s: string, t: string, d: string, from: nat, p: nat, j: nat)
    requires from <= |s| && t == s[from..] && p == from + j
    ensures Find(s, d, p).Some? <==> Find(t, d, j).Some?
    ensures Find(s, d, p).Some? ==> Find(s, d, p).value == from + Find(t, d, j).value
    decreases |t| - j
  {
    if j + |d| <= |t| {
      assert t[j..j + |d|] == s[p..p + |d|];
      FindShift(s, t, d, from, p + 1, j + 1);
    }
  }

  lemma SplitFromStep(s: string, d: string, p: nat, i: nat, first: string, tail: seq<string>)
    requires |d| > 0 && Find(s, d, p) == Some(i) && first == s[p..i] && tail == SplitFrom(s, d, i + |d|)
    ensures SplitFrom(s, d, p) == Piece(first) + tail
  {
  }

  lemma {:induction false} SplitShift(s: string, t: string, d: string, from: nat, p: nat, j: nat)
    requires |d| > 0 && from <= |s| && t == s[from..] && p == from + j && j <= |t|
    ensures SplitFrom(s, d, p) == SplitFrom(t, d, j)
    decreases |t| - j
  {
    hide Find;
    FindShift(s, t, d, from, p, j);
    if Find(t, d, j) == None {
      assert s[p..] == t[j..];
    } else {
      var a, b := Find(s, d, p).value, Find(t, d, j).value;
      SplitShift(s, t, d, from, a + |d|, b + |d|);
      assert s[p..a] == t[j..b];
      SplitFromStep(s, d, p, a, s[p..a], SplitFrom(s, d, a + |d|));
      SplitFromStep(t, d, j, b, s[p..a], SplitFrom(s, d, a + |d|));
    }
  }

  /** One piece is split off at the first delimiter. */
  lemma SplitAt(t: string, d: string, j: nat, left: string, right: string)
    requires |d| > 0 && Find(t, d, 0) == Some(j) && left == t[..j] && right == t[j + |d|..]
    ensures Split(t, d) == Piece(left) + Split(right, d)
  {
    hide Find;
    SplitShift(t, right, d, j + |d|, j + |d|, 0);
    assert t[0..j] == left;
    SplitFromStep(t, d, 0, j, left, SplitFrom(right, d, 0));
  }

  lemma Regroup<T>(a: seq<T>, b: seq<T>, c: seq<T>)
    ensures a + b + c == a + (b + c)
  {
  }

  /** One turn of the loop: the pieces so far and those still to come stay the pieces of the whole. */
  lemma SplitTurn(s: string, d: string, prev: nat, token: string, next: seq<string>,
                  before: seq<string>, whole: seq<string>)
    requires |d| > 0 && prev <= |s| && before + SplitFrom(s, d, prev) == whole
    requires match Find(s, d, prev)
             case None => token == s[prev..] && next == []
             case Some(i) => token == s[prev..i] && next == SplitFrom(s, d, i + |d|)
    ensures before + Piece(token) + next == whole
  {
    hide Find;
    match Find(s, d, prev)
    case None =>
      assert before + Piece(token) + [] == before + Piece(token);
    case Some(i) =>
      SplitFromStep(s, d, prev, i, token, next);
      Regroup(before, Piece(token), next);
  }

  /** The do-while loop of `split`.  The source calls it with "\r\n" and " " only; on an empty delimiter it would
      not advance. */
  method SplitLoop(str: string, delim: string) returns (tokens: seq<string>)
    requires |delim| > 0
    ensures tokens == Split(str, delim)
  {
    hide Find;
    tokens := [];
    var prev, pos := 0, 0;
    var more := true;
    ghost var whole, rest := Split(str, delim), Split(str, delim);
    while more
      invariant tokens + rest == whole
      invariant if more then prev <= |str| && rest == SplitFrom(str, delim, prev) else rest == []
      decreases more, |str| - prev
    {
      ghost var before := tokens;
      var found := Find(str, delim, prev);
      pos := if found.Some? then found.value else |str|;
      var token := str[prev..pos];
      if |token| > 0 { tokens := tokens + [token]; }
      assert tokens == before + Piece(token);
      ghost var next := if found.Some? then SplitFrom(str, delim, found.value + |delim|) else [];
      if found == None { assert token == str[prev..]; }
      SplitTurn(str, delim, prev, token, next, before, whole);
      rest := next;
      prev := pos + |delim|;
      more := pos < |str| && prev < |str|;
    }
  }

  // ---------------------------------------------------------------------------------------------
  // Laws of split
  // ---------------------------------------------------------------------------------------------

  ghost predicate Clean(t: string, d: string) {
    |t| > 0 && !Contains(t, d)
  }

  lemma FindNone(s: string, d: string)
    ensures Find(s, d, 0) == None <==> !Contains(s, d)
  {
    FindIsFirst(s, d, 0);
    var r := Find(s, d, 0);
    if r.Some? { assert MatchAt(s, d, r.value); }
  }

  lemma MatchInside(a: string, c: string, d: string, k: nat)
    requires k + |d| <= |a|
    ensures MatchAt(a + c, d, k) == MatchAt(a, d, k)
  {
    assert (a + c)[k..k + |d|] == a[k..k + |d|];
  }

  lemma MatchRight(a: string, c: string, d: string, k: nat, p: nat)
    requires k + |d| <= |c| && p == |a| + k
    ensures MatchAt(a + c, d, p) == MatchAt(c, d, k)
  {
    assert (a + c)[p..p + |d|] == c[k..k + |d|];
  }

  /** A text none of whose characters is c does not contain c. */
  lemma NoChar(s: string, d: string, c: char)
    requires |d| > 0 && d[0] == c && forall i :: 0 <= i < |s| ==> s[i] != c
    ensures !Contains(s, d)
  {
    forall i: nat | i <= |s| ensures !MatchAt(s, d, i) {
      if i + |d| <= |s| { assert s[i..i + |d|][0] == s[i]; }
    }
  }

  /** An occurrence of d that overlaps another one shows a border of d. */
  lemma MatchOverlaps(a: string, d: string, b: string, k: nat)
    requires k < |a| < k + |d|
    ensures MatchAt(a + d + b, d, k) ==> !BorderFree(d)
  {
    var s, n := a + d + b, k + |d| - |a|;
    if MatchAt(s, d, k) {
      var m := s[k..k + |d|];
      assert m[|d| - n..] == s[|a|..k + |d|];
      assert d[..n] == s[|a|..|a| + n];
    }
  }

  /** The first occurrence of d in a + d + b is the one that was put there, unless a has one. */
  lemma FindAfter(a: string, d: string, b: string)
    requires |d| > 0 && BorderFree(d) && !Contains(a, d)
    ensures Find(a + d + b, d, 0) == Some(|a|)
  {
    var s := a + d + b;
    assert s[|a|..|a| + |d|] == d;
    assert MatchAt(s, d, |a|);
    forall k: nat | k < |a| ensures !MatchAt(s, d, k) {
      if k + |d| <= |a| {
        assert s == a + (d + b);
        MatchInside(a, d + b, d, k);
      } else {
        MatchOverlaps(a, d, b, k);
      }
    }
    FindsAt(s, d, 0, |a|);
  }

  /** What is put behind a text does not change its first occurrence of d. */
  lemma FindBefore(a: string, c: string, d: string)
    requires |d| > 0 && Find(a, d, 0).Some?
    ensures Find(a + c, d, 0) == Find(a, d, 0)
  {
    var i := Find(a, d, 0).value;
    FindIsFirst(a, d, 0);
    forall k: nat | k <= i ensures MatchAt(a + c, d, k) == MatchAt(a, d, k) { MatchInside(a, c, d, k); }
    FindsAt(a + c, d, 0, i);
  }

  lemma SplitFree(s: string, d: string)
    requires |d| > 0 && !Contains(s, d)
    ensures Split(s, d) == Piece(s)
  {
    FindNone(s, d);
    assert s[0..] == s;
  }

  /** Splitting a concatenation around a delimiter concatenates the pieces. */
  lemma {:induction false} SplitCat(a: string, d: string, b: string)
    requires |d| > 0 && BorderFree(d)
    ensures Split(a + d + b, d) == Split(a, d) + Split(b, d)
    decreases |a|
  {
    match Find(a, d, 0)
    case None =>
      FindNone(a, d);
      FindAfter(a, d, b);
      assert (a + d + b)[..|a|] == a && (a + d + b)[|a| + |d|..] == b;
      SplitAt(a + d + b, d, |a|, a, b);
    case Some(i) =>
      var rest := a[i + |d|..];
      assert a + d + b == a + (d + b);
      FindBefore(a, d + b, d);
      assert (a + d + b)[..i] == a[..i] && (a + d + b)[i + |d|..] == rest + d + b;
      SplitAt(a + d + b, d, i, a[..i], rest + d + b);
      SplitAt(a, d, i, a[..i], rest);
      SplitCat(rest, d, b);
      Regroup(Piece(a[..i]), Split(rest, d), Split(b, d));
  }

  /** A delimiter with a border breaks the law. */
  lemma BorderBreaksLaw(d: string, n: nat) returns (a: string)
    requires 0 < n < |d| && d[..n] == d[|d| - n..]
    ensures Split(a + d + "", d) != Split(a, d) + Split("", d)
  {
    var c := if d[0] == 'x' then 'y' else 'x';
    a := [c] + d[..|d| - n];
    var s := a + d + "";
    assert s == [c] + d + d[n..] by {
      assert d == d[..|d| - n] + d[|d| - n..];
      assert d == d[..n] + d[n..];
    }
    assert s[1..1 + |d|] == d;
    assert MatchAt(s, d, 1);
    assert !MatchAt(s, d, 0) by { assert s[..|d|][0] == c; }
    FindsAt(s, d, 0, 1);
    assert s[..1] == [c] && s[1 + |d|..] == d[n..];
    SplitAt(s, d, 1, [c], d[n..]);
    assert |Split(d[n..], d)| == 1;
    assert Find(a, d, 0) == None by {
      if |a| == |d| { assert a[..|d|][0] == c; }
    }
    assert |Split(a, d)| == 1 && Split("", d) == [];
  }

  /** Splitting distributes over concatenation around d exactly when d has no border. */
  lemma SplitLawExact(d: string)
    requires |d| > 0
    ensures BorderFree(d) <==> forall a, b :: Split(a + d + b, d) == Split(a, d) + Split(b, d)
  {
    if BorderFree(d) {
      forall a, b ensures Split(a + d + b, d) == Split(a, d) + Split(b, d) { SplitCat(a, d, b); }
    } else {
      var n: nat :| 0 < n < |d| && d[..n] == d[|d| - n..];
      var a := BorderBreaksLaw(d, n);
    }
  }

  /** Every piece is nonempty and free of the delimiter, whatever the delimiter. */
  lemma {:induction false} SplitClean(s: string, d: string, k: nat)
    requires |d| > 0 && k < |Split(s, d)|
    ensures Clean(Split(s, d)[k], d)
    decreases |s|
  {
    match Find(s, d, 0)
    case None =>
      FindNone(s, d);
    case Some(i) =>
      var left, rest := s[..i], s[i + |d|..];
      SplitAt(s, d, i, left, rest);
      FindIsFirst(s, d, 0);
      if k < |Piece(left)| {
        assert s == left + s[i..];
        forall j: nat | j <= |left| ensures !MatchAt(left, d, j) {
          if j + |d| <= |left| { MatchInside(left, s[i..], d, j); }
        }
      } else {
        SplitClean(rest, d, k - |Piece(left)|);
      }
  }

  function Join(ts: seq<string>, d: string): string {
    if |ts| == 0 then "" else if |ts| == 1 then ts[0] else ts[0] + d + Join(ts[1..], d)
  }

  lemma {:induction false} JoinSnoc(ts: seq<string>, d: string, t: string)
    requires |ts| > 0
    ensures Join(ts + [t], d) == Join(ts, d) + d + t
  {
    if |ts| == 1 {
      assert (ts + [t])[1..] == [t];
    } else {
      assert (ts + [t])[1..] == ts[1..] + [t];
      JoinSnoc(ts[1..], d, t);
      assert ts[0] + d + (Join(ts[1..], d) + d + t) == ts[0] + d + Join(ts[1..], d) + d + t;
    }
  }

  /** Splitting undoes joining. */
  lemma {:induction false} SplitJoin(ts: seq<string>, d: string)
    requires |d| > 0 && BorderFree(d)
    requires forall k: nat :: k < |ts| ==> Clean(ts[k], d)
    ensures Split(Join(ts, d), d) == ts
  {
    if |ts| == 0 {
    } else if |ts| == 1 {
      SplitFree(ts[0], d);
    } else {
      SplitFree(ts[0], d);
      SplitCat(ts[0], d, Join(ts[1..], d));
      SplitJoin(ts[1..], d);
      assert ts == [ts[0]] + ts[1..];
    }
  }

  /** A text and the join of its pieces have the same pieces. */
  lemma SplitNormalises(s: string, d: string)
    requires |d| > 0 && BorderFree(d)
    ensures Split(Join(Split(s, d), d), d) == Split(s, d)
  {
    forall k: nat | k < |Split(s, d)| ensures Clean(Split(s, d)[k], d) { SplitClean(s, d, k); }
    SplitJoin(Split(s, d), d);
  }

  /** Repeating a delimiter changes nothing: blank lines are not seen. */
  lemma BlankIgnored(a: string, d: string, b: string)
    requires |d| > 0 && BorderFree(d)
    ensures Split(a + d + d + b, d) == Split(a + d + b, d)
  {
    var pieces := Split(b, d);
    SplitCat(a, d, b);
    SplitCat("", d, b);
    assert "" + d + b == d + b && Split("", d) + pieces == pieces;
    SplitCat(a, d, d + b);
    SameSplit(a + d + d + b, a + d + (d + b), d);
  }

  lemma SameSplit(s: string, t: string, d: string)
    requires |d| > 0 && s == t
    ensures Split(s, d) == Split(t, d)
  {
  }
}
