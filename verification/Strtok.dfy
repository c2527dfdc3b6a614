/** The reentrant tokenizer of the C library, which cuts a string in place. */
module Strtok {
  /** Whether `c` is in the set, a C string that its first NUL ends. */
  predicate InSet(c: char, accept: string) {
    accept != "" && accept[0] != '\0' && (accept[0] == c || InSet(c, accept[1..]))
  }

  /** A character is in the set if it stands somewhere in front of the NUL. */
  lemma {:induction false} InSetIs(c: char, accept: string)
    ensures InSet(c, accept)
       <==> exists k :: 0 <= k < |accept| && accept[k] == c && forall j :: 0 <= j <= k ==> accept[j] != '\0'
    decreases |accept|
  {
    if accept != "" && accept[0] != '\0' && accept[0] != c {
      var rest := accept[1..];
      InSetIs(c, rest);
      if InSet(c, rest) {
        var k :| 0 <= k < |rest| && rest[k] == c && forall j :: 0 <= j <= k ==> rest[j] != '\0';
        assert forall j :: 0 <= j <= k + 1 ==> accept[j] == if j == 0 then accept[0] else rest[j - 1];
        assert accept[k + 1] == c;
      }
    } else if accept != "" && accept[0] == c && c != '\0' {
      assert accept[0] == c && forall j :: 0 <= j <= 0 ==> accept[j] != '\0';
    }
  }

  /** The first place from `p` on that is not in the set. */
  function SkipSet(s: string, accept: string, p: nat): (q: nat)
    requires p <= |s|
    ensures p <= q <= |s| && (q < |s| ==> !InSet(s[q], accept))
    ensures forall k :: p <= k < q ==> InSet(s[k], accept)
    decreases |s| - p
  {
    if p < |s| && InSet(s[p], accept) then SkipSet(s, accept, p + 1) else p
  }

  /** The first place from `p` on that is in the set. */
  function FindSet(s: string, accept: string, p: nat): (q: nat)
    requires p <= |s|
    ensures p <= q <= |s| && (q < |s| ==> InSet(s[q], accept))
    ensures forall k :: p <= k < q ==> !InSet(s[k], accept)
    decreases |s| - p
  {
    if p < |s| && !InSet(s[p], accept) then FindSet(s, accept, p + 1) else p
  }

  datatype Span = Span(start: nat, end: nat)

  /** The tokens from `p` on, one after the other. */
  function Spans(s: string, delim: string, p: nat): seq<Span>
    requires p <= |s|
    decreases |s| - p
  {
    var a := SkipSet(s, delim, p);
    if a == |s| then []
    else
      var e := FindSet(s, delim, a);
      [Span(a, e)] + if e < |s| then Spans(s, delim, e + 1) else []
  }

  /** A stretch without delimiters that cannot be made longer on either side. */
  ghost predicate MaximalRun(s: string, delim: string, t: Span) {
    && t.start < t.end <= |s|
    && (forall k :: t.start <= k < t.end ==> !InSet(s[k], delim))
    && (t.start == 0 || InSet(s[t.start - 1], delim))
    && (t.end == |s| || InSet(s[t.end], delim))
  }

  /** The tokens are exactly the maximal delimiter-free stretches. */
  lemma {:induction false} SpansAreMaximal(s: string, delim: string, p: nat, t: Span)
    requires p <= |s| && (p == 0 || InSet(s[p - 1], delim))
    ensures t in Spans(s, delim, p) <==> MaximalRun(s, delim, t) && p <= t.start
    decreases |s| - p
  {
    hide InSet, MaximalRun, SkipSet, FindSet, Spans;
    SpansUnfold(s, delim, p);
    var a := SkipSet(s, delim, p);
    if a < |s| {
      var e := FindSet(s, delim, a);
      var rest := if e < |s| then Spans(s, delim, e + 1) else [];
      if e < |s| {
        SpansAreMaximal(s, delim, e + 1, t);
      }
      FirstRun(s, delim, p, a, e, t);
      InFront(Span(a, e), rest, t);
    } else {
      NoRun(s, delim, p, t);
    }
  }

  lemma SpansUnfold(s: string, delim: string, p: nat)
    requires p <= |s|
    ensures var a := SkipSet(s, delim, p);
      if a == |s| then Spans(s, delim, p) == []
      else
        var e := FindSet(s, delim, a);
        a < e && Spans(s, delim, p) == [Span(a, e)] + if e < |s| then Spans(s, delim, e + 1) else []
  {
    hide InSet, SkipSet;
  }

  lemma InFront(first: Span, rest: seq<Span>, t: Span)
    ensures t in [first] + rest <==> t == first || t in rest
  {
  }

  /** Where there are only delimiters there is no token. */
  lemma NoRun(s: string, delim: string, p: nat, t: Span)
    requires p <= |s| && forall k :: p <= k < |s| ==> InSet(s[k], delim)
    ensures MaximalRun(s, delim, t) ==> t.start < p
  {
    hide InSet;
    if t.start < |s| {
      var opens := InSet(s[t.start], delim);
    }
  }

  /** A maximal stretch after `p` is the first token or starts after it. */
  lemma FirstRun(s: string, delim: string, p: nat, a: nat, e: nat, t: Span)
    requires p <= a < e <= |s| && (p == 0 || InSet(s[p - 1], delim))
    requires forall k :: p <= k < a ==> InSet(s[k], delim)
    requires forall k :: a <= k < e ==> !InSet(s[k], delim)
    requires e == |s| || InSet(s[e], delim)
    ensures MaximalRun(s, delim, Span(a, e))
    ensures MaximalRun(s, delim, t) && p <= t.start ==> t.start < |s| && (t == Span(a, e) || t.start > e)
  {
    hide InSet;
    if MaximalRun(s, delim, t) && p <= t.start {
      var opens := InSet(s[t.start], delim);
      var opensLate := t.start > 0 && InSet(s[t.start - 1], delim);
      var endsEarly := t.end < |s| && InSet(s[t.end], delim);
      var endsLate := e < |s| && InSet(s[e], delim);
      if t.start < a {
        assert false;
      } else if a < t.start < e {
        assert false;
      }
    }
  }

  /** The tokens come in order, each after the end of the one before, all within the string. */
  lemma {:induction false} SpansInOrder(s: string, delim: string, p: nat)
    requires p <= |s|
    ensures Ordered(Spans(s, delim, p), p, |s|)
    decreases |s| - p
  {
    hide InSet, SkipSet, FindSet, Spans;
    SpansUnfold(s, delim, p);
    var a := SkipSet(s, delim, p);
    if a < |s| {
      var e := FindSet(s, delim, a);
      if e < |s| {
        SpansInOrder(s, delim, e + 1);
        OrderedFront(Span(a, e), Spans(s, delim, e + 1), p, |s|);
      }
    }
  }

  ghost predicate Ordered(spans: seq<Span>, from: nat, end: nat) {
    && (forall k :: 0 <= k < |spans| ==> from <= spans[k].start < spans[k].end <= end)
    && (forall j, k :: 0 <= j < k < |spans| ==> spans[j].end < spans[k].start)
  }

  lemma OrderedFront(first: Span, rest: seq<Span>, from: nat, end: nat)
    requires from <= first.start < first.end && first.end + 1 <= end && Ordered(rest, first.end + 1, end)
    ensures Ordered([first] + rest, from, end)
  {
    var all := [first] + rest;
    assert forall k :: 1 <= k < |all| ==> all[k] == rest[k - 1];
  }

  // ---- The source -----------------------------------------------------------------------------------

  datatype Pointer = Null | At(pos: nat)

  /** From `p` on the buffer still holds the string, up to its NUL. */
  ghost predicate Holds(buf: array<char>, s: string, p: nat)
    reads buf
  {
    && p <= |s| < buf.Length && buf[|s|] == '\0'
    && forall k :: p <= k < |s| ==> buf[k] == s[k] && s[k] != '\0'
  }

  /** The inner loop of strspn and strpbrk. */
  method IsMember(c: char, accept: string) returns (found: bool)
    ensures found == InSet(c, accept)
  {
    var a := 0;
    while a < |accept| && accept[a] != '\0'
      invariant a <= |accept| && InSet(c, accept) == InSet(c, accept[a..])
    {
      if c == accept[a] {
        return true;
      }
      assert accept[a..][1..] == accept[a + 1..];
      a := a + 1;
    }
    return false;
  }

  /** strspn, as a place. */
  method StrSpn(buf: array<char>, ghost s: string, start: nat, accept: string) returns (p: nat)
    requires Holds(buf, s, start)
    ensures p == SkipSet(s, accept, start)
  {
    hide InSet;
    p := start;
    while buf[p] != '\0'
      invariant start <= p <= |s| && SkipSet(s, accept, start) == SkipSet(s, accept, p)
      decreases |s| - p
    {
      var found := IsMember(buf[p], accept);
      if !found {
        return;
      }
      p := p + 1;
    }
  }

  /** strpbrk. */
  method StrPbrk(buf: array<char>, ghost s: string, start: nat, accept: string) returns (r: Pointer)
    requires Holds(buf, s, start)
    ensures var q := FindSet(s, accept, start); r == if q == |s| then Null else At(q)
  {
    hide InSet;
    var p := start;
    while buf[p] != '\0'
      invariant start <= p <= |s| && FindSet(s, accept, start) == FindSet(s, accept, p)
      decreases |s| - p
    {
      var found := IsMember(buf[p], accept);
      if found {
        return At(p);
      }
      p := p + 1;
    }
    return Null;
  }

  /** strtok_r, continuing at the saved place: the next token, and at most one delimiter overwritten, right after it. */
  method StrtokR(buf: array<char>, ghost s: string, str: Pointer, delim: string)
    returns (token: Pointer, saved: Pointer)
    requires str.At? ==> Holds(buf, s, str.pos)
    modifies buf
    ensures var spans := if str.Null? then [] else Spans(s, delim, str.pos);
      if spans == [] then token == Null && saved == Null && buf[..] == old(buf[..])
      else
        var t := spans[0];
        && token == At(t.start) && t.end < buf.Length
        && buf[..] == old(buf[..])[t.end := '\0']
        && saved == (if t.end < |s| then At(t.end + 1) else Null)
  {
    hide InSet;
    if str == Null {
      return Null, Null;
    }
    var start := StrSpn(buf, s, str.pos, delim);
    if buf[start] == '\0' {
      return Null, Null;
    }
    var end := StrPbrk(buf, s, start, delim);
    if end == Null {
      return At(start), Null;
    }
    buf[end.pos] := '\0';
    return At(start), At(end.pos + 1);
  }

  /** The tokens after the first. */
  lemma SpansStep(s: string, delim: string, p: nat)
    requires p <= |s| && Spans(s, delim, p) != []
    ensures var all := Spans(s, delim, p); var e := all[0].end;
      p <= e <= |s| && all[1..] == if e < |s| then Spans(s, delim, e + 1) else []
  {
    hide InSet;
  }

  /** The tokens end within `n` characters. */
  ghost predicate Within(spans: seq<Span>, n: nat) {
    forall k :: 0 <= k < |spans| ==> spans[k].end < n
  }

  function StartsOf(spans: seq<Span>): (r: seq<nat>)
    ensures |r| == |spans| && forall k :: 0 <= k < |spans| ==> r[k] == spans[k].start
  {
    if spans == [] then [] else [spans[0].start] + StartsOf(spans[1..])
  }

  /** The string cut after each token. */
  ghost function Cut(chars: seq<char>, spans: seq<Span>): (r: seq<char>)
    requires Within(spans, |chars|)
    ensures |r| == |chars|
    decreases |spans|
  {
    if spans == [] then chars else Cut(chars[spans[0].end := '\0'], spans[1..])
  }

  lemma CutFirst(chars: seq<char>, spans: seq<Span>)
    requires spans != [] && Within(spans, |chars|)
    ensures Within(spans[1..], |chars|)
    ensures Cut(chars, spans) == Cut(chars[spans[0].end := '\0'], spans[1..])
  {
  }

  lemma CutNone(chars: seq<char>)
    ensures Cut(chars, []) == chars
  {
  }

  lemma StartsFirst(spans: seq<Span>)
    requires spans != []
    ensures StartsOf(spans) == [spans[0].start] + StartsOf(spans[1..]) && StartsOf([]) == []
  {
  }

  lemma SpansWithin(s: string, delim: string, n: nat)
    requires |s| < n
    ensures Within(Spans(s, delim, 0), n)
  {
    hide InSet, SkipSet, FindSet, Spans;
    SpansInOrder(s, delim, 0);
  }

  /** Of the string the characters after its tokens are cut, and no others. */
  lemma {:induction false} CutIs(chars: seq<char>, spans: seq<Span>, k: nat)
    requires Within(spans, |chars|) && k < |chars|
    ensures Cut(chars, spans)[k] == if exists j :: 0 <= j < |spans| && spans[j].end == k then '\0' else chars[k]
    decreases |spans|
  {
    if spans != [] {
      var rest, cut := spans[1..], chars[spans[0].end := '\0'];
      CutIs(cut, rest, k);
      assert forall j :: 0 < j < |spans| ==> spans[j] == rest[j - 1];
      if exists j :: 0 <= j < |spans| && spans[j].end == k {
        var j :| 0 <= j < |spans| && spans[j].end == k;
        assert j > 0 ==> rest[j - 1].end == k;
      }
    }
  }

  /** Calling strtok_r until it returns NULL: every token once and in order, one delimiter overwritten after each. */
  method Tokenize(buf: array<char>, ghost s: string, delim: string) returns (starts: seq<nat>)
    requires Holds(buf, s, 0)
    modifies buf
    ensures var spans := Spans(s, delim, 0);
      && starts == StartsOf(spans)
      && Within(spans, buf.Length) && buf[..] == Cut(old(buf[..]), spans)
  {
    hide InSet, Cut, SkipSet, FindSet, Spans, StartsOf, Within;
    ghost var all := Spans(s, delim, 0);
    ghost var left := all;
    SpansWithin(s, delim, buf.Length);
    var saved := At(0);
    starts := [];
    while true
      invariant saved.At? ==> Holds(buf, s, saved.pos)
      invariant left == if saved.Null? then [] else Spans(s, delim, saved.pos)
      invariant starts + StartsOf(left) == StartsOf(all)
      invariant Within(left, buf.Length) && Cut(buf[..], left) == Cut(old(buf[..]), all)
      decreases |left|
    {
      if saved.At? && left != [] {
        SpansStep(s, delim, saved.pos);
      }
      ghost var before := buf[..];
      var token;
      token, saved := StrtokR(buf, s, saved, delim);
      if token == Null {
        break;
      }
      StartsFirst(left);
      CutFirst(before, left);
      starts := starts + [token.pos];
      left := left[1..];
    }
    CutNone(buf[..]);
  }
}
