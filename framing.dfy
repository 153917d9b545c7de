/** Line framing of the inbound text stream: a buffer is cut at each '\n',
    the complete lines are handled in order and the unterminated tail is kept
    for the next read. */
module Framing {

  /** The characters Python's `str.isspace` accepts, which `str.strip()` removes. */
  predicate IsSpace(ch: char)
  {
    || ch == ' ' || ch == '\t' || ch == '\n' || ch == '\r'
    || ch == '\U{B}' || ch == '\U{C}'
    || ('\U{1C}' <= ch <= '\U{1F}')
    || ch == '\U{85}' || ch == '\U{A0}' || ch == '\U{1680}'
    || ('\U{2000}' <= ch <= '\U{200A}')
    || ch == '\U{2028}' || ch == '\U{2029}' || ch == '\U{202F}' || ch == '\U{205F}' || ch == '\U{3000}'
  }

  /** The first index at or after `i` that does not hold whitespace, or `|s|`. */
  function SkipSpaces(s: string, i: nat): (j: nat)
    requires i <= |s|
    ensures i <= j <= |s|
    ensures forall k :: i <= k < j ==> IsSpace(s[k])
    ensures j < |s| ==> !IsSpace(s[j])
    decreases |s| - i
  {
    if i < |s| && IsSpace(s[i]) then SkipSpaces(s, i + 1) else i
  }

  /** The end of `s[lo..hi]` once its trailing whitespace is dropped. */
  function TrimEnd(s: string, lo: nat, hi: nat): (j: nat)
    requires lo <= hi <= |s|
    ensures lo <= j <= hi
    ensures forall k :: j <= k < hi ==> IsSpace(s[k])
    ensures j > lo ==> !IsSpace(s[j - 1])
    decreases hi
  {
    if hi > lo && IsSpace(s[hi - 1]) then TrimEnd(s, lo, hi - 1) else hi
  }

  /** Where `str.strip()` starts its slice: past every leading whitespace character. */
  function StripStart(s: string): (lo: nat)
    ensures lo <= |s|
  {
    SkipSpaces(s, 0)
  }

  /** `str.strip()`: the slice of `s` left once leading and trailing whitespace
      is removed; it neither starts nor ends with whitespace, and it is empty
      exactly when `s` is all whitespace. */
  function Strip(s: string): (r: string)
    ensures StripStart(s) + |r| <= |s| && r == s[StripStart(s)..StripStart(s) + |r|]
    ensures forall i :: 0 <= i < StripStart(s) ==> IsSpace(s[i])
    ensures forall i :: StripStart(s) + |r| <= i < |s| ==> IsSpace(s[i])
    ensures r != [] ==> !IsSpace(r[0]) && !IsSpace(r[|r| - 1])
    ensures r == [] <==> forall i :: 0 <= i < |s| ==> IsSpace(s[i])
  {
    var lo := StripStart(s);
    s[lo..TrimEnd(s, lo, |s|)]
  }

  /** The position of the first '\n' at or after `from`, or `|s|` when there
      is none. */
  function FindNewline(s: string, from: nat): (i: nat)
    requires from <= |s|
    ensures from <= i <= |s|
    ensures i < |s| ==> s[i] == '\n'
    ensures forall k :: from <= k < i ==> s[k] != '\n'
    decreases |s| - from
  {
    if from == |s| || s[from] == '\n' then from else FindNewline(s, from + 1)
  }

  /** The position of the first '\n' in `s`, or `|s|` when there is none;
      these conditions pin it down, so any index meeting them is this one. */
  function NewlineIndex(s: string): (i: nat)
    ensures i <= |s|
    ensures i < |s| ==> s[i] == '\n'
    ensures forall k :: 0 <= k < i ==> s[k] != '\n'
  {
    FindNewline(s, 0)
  }

  /** `'\n' in s` is what the framing loop tests. */
  lemma HasNewline(s: string)
    ensures '\n' in s <==> NewlineIndex(s) < |s|
  {
    if NewlineIndex(s) < |s| {
      assert s[NewlineIndex(s)] == '\n';
    }
  }

  /** The complete ('\n'-terminated) lines of `buffer`, in order, without
      their terminators; what repeated `buffer.split('\n', 1)` yields. */
  function CompleteLines(buffer: string): (lines: seq<string>)
    decreases |buffer|
  {
    var i := NewlineIndex(buffer);
    if i < |buffer| then [buffer[..i]] + CompleteLines(buffer[i + 1..]) else []
  }

  /** What is left of `buffer` once every complete line is split off. */
  function Tail(buffer: string): (rest: string)
    ensures forall k :: 0 <= k < |rest| ==> rest[k] != '\n'
    decreases |buffer|
  {
    var i := NewlineIndex(buffer);
    if i < |buffer| then Tail(buffer[i + 1..]) else buffer
  }

  /** One turn of the framing loop: split off the first line. */
  lemma SplitFirst(buffer: string)
    requires NewlineIndex(buffer) < |buffer|
    ensures CompleteLines(buffer) == [buffer[..NewlineIndex(buffer)]] + CompleteLines(buffer[NewlineIndex(buffer) + 1..])
    ensures Tail(buffer) == Tail(buffer[NewlineIndex(buffer) + 1..])
  {
  }

  /** A buffer without '\n' holds no complete line and is all tail. */
  lemma NoSplit(buffer: string)
    requires NewlineIndex(buffer) == |buffer|
    ensures CompleteLines(buffer) == [] && Tail(buffer) == buffer
  {
  }

  /** No complete line holds a '\n' of its own. */
  lemma {:induction false} LinesHaveNoNewline(buffer: string)
    ensures forall j, k :: 0 <= j < |CompleteLines(buffer)| && 0 <= k < |CompleteLines(buffer)[j]| ==>
      CompleteLines(buffer)[j][k] != '\n'
    decreases |buffer|
  {
    var i := NewlineIndex(buffer);
    if i < |buffer| {
      LinesHaveNoNewline(buffer[i + 1..]);
    }
  }

  /** The wire encoding of a sequence of lines: each followed by one '\n'. */
  function Frame(lines: seq<string>): (text: string)
  {
    if lines == [] then [] else lines[0] + "\n" + Frame(lines[1..])
  }

  /** Framing a first line and then the rest. */
  lemma FrameCons(line: string, lines: seq<string>)
    ensures Frame([line] + lines) == line + "\n" + Frame(lines)
  {
    assert ([line] + lines)[1..] == lines;
  }

  /** Put back together around a '\n', `s` is what it was. */
  lemma CutAt(s: string, i: nat, f: string, t: string)
    requires i < |s| && s[i] == '\n' && f + t == s[i + 1..]
    ensures s[..i] + "\n" + f + t == s
  {
    assert s[..i + 1] == s[..i] + [s[i]];
    assert s == s[..i + 1] + s[i + 1..];
    assert s[..i] + "\n" + f + t == s[..i] + "\n" + (f + t);
  }

  /** Splitting loses nothing: the buffer is its complete lines, each with
      its '\n', followed by the tail. */
  lemma {:induction false} SplitReassembles(buffer: string)
    ensures Frame(CompleteLines(buffer)) + Tail(buffer) == buffer
    decreases |buffer|
  {
    var i := NewlineIndex(buffer);
    if i < |buffer| {
      var line, rest := buffer[..i], buffer[i + 1..];
      SplitReassembles(rest);
      FrameCons(line, CompleteLines(rest));
      CutAt(buffer, i, Frame(CompleteLines(rest)), Tail(rest));
    }
  }

  /** Splitting inverts framing: lines without '\n', framed and followed by
      an unterminated tail, split back into exactly those lines and that tail. */
  lemma {:induction false} SplitFrame(lines: seq<string>, tail: string)
    requires forall j, k :: 0 <= j < |lines| && 0 <= k < |lines[j]| ==> lines[j][k] != '\n'
    requires forall k :: 0 <= k < |tail| ==> tail[k] != '\n'
    ensures CompleteLines(Frame(lines) + tail) == lines
    ensures Tail(Frame(lines) + tail) == tail
  {
    if lines == [] {
      assert Frame(lines) + tail == tail;
    } else {
      var l := lines[0];
      var rest := Frame(lines[1..]) + tail;
      var buffer := Frame(lines) + tail;
      assert buffer == l + "\n" + rest;
      assert buffer[|l|] == '\n';
      assert forall k :: 0 <= k < |l| ==> buffer[k] == l[k];
      assert NewlineIndex(buffer) == |l|;
      assert buffer[..|l|] == l;
      assert buffer[|l| + 1..] == rest;
      SplitFrame(lines[1..], tail);
    }
  }

  /** Text appended after a '\n' changes neither the first line nor where
      the rest begins. */
  lemma SplitFirstOfJoin(a: string, b: string)
    requires NewlineIndex(a) < |a|
    ensures CompleteLines(a + b) == [a[..NewlineIndex(a)]] + CompleteLines(a[NewlineIndex(a) + 1..] + b)
    ensures Tail(a + b) == Tail(a[NewlineIndex(a) + 1..] + b)
  {
    var i := NewlineIndex(a);
    var ab := a + b;
    assert ab[i] == a[i];
    assert NewlineIndex(ab) == i;
    assert ab[..i] == a[..i];
    assert ab[i + 1..] == a[i + 1..] + b;
  }

  /** Where a read boundary falls does not matter: splitting `a + b` gives
      the lines of `a`, then the lines of `a`'s tail continued by `b`. */
  lemma {:induction false} LinesAcrossReads(a: string, b: string)
    ensures CompleteLines(a + b) == CompleteLines(a) + CompleteLines(Tail(a) + b)
    decreases |a|
  {
    var i := NewlineIndex(a);
    if i < |a| {
      var rest := a[i + 1..];
      SplitFirst(a);
      SplitFirstOfJoin(a, b);
      LinesAcrossReads(rest, b);
      Regroup(CompleteLines(a + b), CompleteLines(a), CompleteLines(rest + b),
              CompleteLines(rest), CompleteLines(Tail(rest) + b), a[..i]);
    } else {
      NoSplit(a);
      assert [] + CompleteLines(a + b) == CompleteLines(a + b);
    }
  }

  /** The tail kept after reading `a` and then `b` is the tail of `a`'s tail
      continued by `b`, as if `a + b` had arrived in one read. */
  lemma {:induction false} TailAcrossReads(a: string, b: string)
    ensures Tail(a + b) == Tail(Tail(a) + b)
    decreases |a|
  {
    var i := NewlineIndex(a);
    if i < |a| {
      SplitFirstOfJoin(a, b);
      TailAcrossReads(a[i + 1..], b);
    }
  }

  /** `x` is `h` then `y`, `y` is `p` then `q`, and `a` is `h` then `p`:
      so `x` is `a` then `q`. */
  lemma Regroup(x: seq<string>, a: seq<string>, y: seq<string>, p: seq<string>, q: seq<string>, h: string)
    requires x == [h] + y && y == p + q && a == [h] + p
    ensures x == a + q
  {
    assert [h] + (p + q) == ([h] + p) + q;
  }
}
