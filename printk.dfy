/**
 * The kernel log: `printk` formats a message with `vsprintf` into a
 * 1024-character scratch buffer (three characters in, so that a priority
 * prefix can be written in front of it), then copies it line by line into
 * a 16384-character ring buffer, giving every line that does not start
 * with a priority prefix `<d>` (d in 0..7) the default prefix `<4>`.
 */
module Printk {
  import opened Words
  import KString
  import Vsprintf

  const LOG_BUF_LEN: nat := 16384
  const BUF_LEN: nat := 1024
  const DEFAULT_MESSAGE_LOGLEVEL: int := 4

  /** The last `n` characters of `s` (all of `s` when it is shorter). */
  function LastN(s: seq<char>, n: nat): (r: seq<char>)
    ensures |r| == if |s| < n then |s| else n
  {
    if |s| <= n then s else s[|s| - n..]
  }

  /** A line opens with a priority prefix `<0>` .. `<7>`. */
  predicate HasPriority(s: seq<char>)
  {
    |s| >= 3 && s[0] == '<' && '0' <= s[1] <= '7' && s[2] == '>'
  }

  /** Length of the first line of `s`, its newline included. */
  function LineLength(s: seq<char>): (n: nat)
    ensures n <= |s|
    ensures s != [] ==> 1 <= n
    ensures forall i :: 0 <= i < n - 1 ==> s[i] != '\n'
    ensures n < |s| ==> s[n - 1] == '\n'
  {
    if s == [] then 0 else if s[0] == '\n' then 1 else 1 + LineLength(s[1..])
  }

  /** What the log receives for a text, and the message level left behind. */
  datatype Logged = Logged(text: seq<char>, level: int)

  /** The prefix `<4>` of the default message level. */
  const DEFAULT_PREFIX: seq<char> := ['<', (DEFAULT_MESSAGE_LOGLEVEL + '0' as int) as char, '>']

  /** The prefix written in front of a line: the default one at a line start that has none. */
  function LinePrefix(level: int, s: seq<char>): seq<char>
  {
    if level < 0 && !HasPriority(s) then DEFAULT_PREFIX else []
  }

  /** The message level while the first line of `s` is logged. */
  function LineLevel(level: int, s: seq<char>): int
    requires |s| >= 3 || level >= 0 || !HasPriority(s)
  {
    if level >= 0 then level
    else if HasPriority(s) then s[1] as int - '0' as int
    else DEFAULT_MESSAGE_LOGLEVEL
  }

  /** What the log receives for the first line of `s`: its prefix, then the line. */
  function LineText(level: int, s: seq<char>): seq<char>
  {
    LinePrefix(level, s) + s[..LineLength(s)]
  }

  /** The message level after the first line of `s`: -1 once a newline was logged. */
  function NextLevel(level: int, s: seq<char>): int
    requires s != []
  {
    if s[LineLength(s) - 1] == '\n' then -1 else LineLevel(level, s)
  }

  /**
   * The characters `printk` appends to the log for the formatted text `s`,
   * starting with message level `level` (-1: at the start of a line).
   */
  function LogLines(level: int, s: seq<char>): (r: Logged)
    decreases |s|
  {
    if s == [] then Logged([], level)
    else
      var rest := LogLines(NextLevel(level, s), s[LineLength(s)..]);
      Logged(LineText(level, s) + rest.text, rest.level)
  }

  /**
   * The level left behind is -1 exactly when the text ends with a newline,
   * and otherwise a priority 0..7; an empty text leaves the level alone.
   */
  lemma {:induction false} LogLinesLevel(level: int, s: seq<char>)
    requires -1 <= level <= 7
    ensures s == [] ==> LogLines(level, s).level == level
    ensures s != [] ==> (LogLines(level, s).level == -1 <==> s[|s| - 1] == '\n')
    ensures s != [] ==> -1 <= LogLines(level, s).level <= 7
    decreases |s|
  {
    if s != [] {
      var n := LineLength(s);
      if n < |s| {
        LogLinesLevel(NextLevel(level, s), s[n..]);
        assert s[n..][|s[n..]| - 1] == s[|s| - 1];
      } else {
        assert s[n..] == [];
      }
    }
  }

  /** Text without a newline, logged in the middle of a line, goes in unchanged. */
  lemma LogLinesWithinLine(level: int, s: seq<char>)
    requires level >= 0 && '\n' !in s
    ensures LogLines(level, s) == Logged(s, level)
  {
    if s != [] {
      var n := LineLength(s);
      assert forall i :: 0 <= i < |s| ==> s[i] != '\n';
      assert s[n..] == [] && s[..n] == s;
    }
  }

  /** A line start of `t`: position 0, or just after a newline. */
  predicate LineStart(t: seq<char>, i: int)
  {
    0 <= i < |t| && (i == 0 || t[i - 1] == '\n')
  }

  /** Every line of `t` opens with a priority prefix. */
  predicate AllPrefixed(t: seq<char>)
  {
    forall i :: 0 <= i < |t| && LineStart(t, i) ==> HasPriority(t[i..])
  }

  /** A prefixed single line followed by prefixed lines is prefixed throughout. */
  lemma JoinPrefixed(line: seq<char>, rest: seq<char>)
    requires HasPriority(line)
    requires forall i :: 0 <= i < |line| - 1 ==> line[i] != '\n'
    requires rest != [] ==> line[|line| - 1] == '\n'
    requires AllPrefixed(rest)
    ensures AllPrefixed(line + rest)
  {
    var t := line + rest;
    assert forall k :: 0 <= k < |line| - 1 ==> t[k] == line[k];
    forall i | LineStart(t, i)
      ensures HasPriority(t[i..])
    {
      if i == 0 {
        assert t[i..][..3] == line[..3];
      } else {
        assert LineStart(rest, i - |line|);
        assert t[i..] == rest[i - |line|..];
      }
    }
  }

  /** Every line of what is logged from the start of a line carries a priority prefix. */
  lemma {:induction false} EveryLinePrefixed(s: seq<char>)
    ensures AllPrefixed(LogLines(-1, s).text)
    decreases |s|
  {
    if s != [] {
      var n := LineLength(s);
      var line := LineText(-1, s);
      var rest := LogLines(NextLevel(-1, s), s[n..]);
      assert HasPriority(line) by {
        if HasPriority(s) {
          assert s[..3] == line[..3];
        }
      }
      assert forall i :: 0 <= i < |line| - 1 ==> line[i] != '\n' by {
        if !HasPriority(s) {
          assert forall i :: 3 <= i < |line| ==> line[i] == s[i - 3];
        }
      }
      if n < |s| {
        assert NextLevel(-1, s) == -1;
        EveryLinePrefixed(s[n..]);
        assert line[|line| - 1] == s[n - 1];
      } else {
        assert s[n..] == [];
      }
      JoinPrefixed(line, rest.text);
    }
  }

  /**
   * The line as the inner loop sees it, prefix written in front: the prefix
   * holds no newline, so it lengthens the first line by its own length.
   */
  lemma PrefixedLine(level: int, s: seq<char>)
    requires s != []
    ensures var seg := LinePrefix(level, s) + s;
      LineLength(seg) == |LinePrefix(level, s)| + LineLength(s) &&
      seg[..LineLength(seg)] == LineText(level, s) &&
      seg[LineLength(seg) - 1] == s[LineLength(s) - 1]
  {
    var pre := LinePrefix(level, s);
    var n := LineLength(s);
    LineLengthAfter(pre, s);
    assert (pre + s)[..|pre| + n] == pre + s[..n];
    assert (pre + s)[|pre| + n - 1] == s[n - 1];
  }

  /** A text without newlines in front of `s` lengthens its first line by its own length. */
  lemma {:induction false} LineLengthAfter(pre: seq<char>, s: seq<char>)
    requires forall i :: 0 <= i < |pre| ==> pre[i] != '\n'
    ensures LineLength(pre + s) == |pre| + LineLength(s)
    decreases |pre|
  {
    if pre != [] {
      assert (pre + s)[1..] == pre[1..] + s;
      LineLengthAfter(pre[1..], s);
    } else {
      assert pre + s == s;
    }
  }

  /** One line of `s` moved from what is still to be logged to what was logged. */
  lemma LinesStep(level: int, s: seq<char>, logged: seq<char>, r0: Logged)
    requires s != []
    requires var rest := LogLines(level, s); r0 == Logged(logged + rest.text, rest.level)
    ensures var rest := LogLines(NextLevel(level, s), s[LineLength(s)..]);
      r0 == Logged(logged + LineText(level, s) + rest.text, rest.level)
  {
  }

  /** The first line ends at the first newline. */
  lemma LineLengthAt(s: seq<char>, k: nat)
    requires k < |s| && s[k] == '\n'
    requires forall i :: 0 <= i < k ==> s[i] != '\n'
    ensures LineLength(s) == k + 1
  {
  }

  /** Without a newline the first line is the whole text. */
  lemma LineLengthNone(s: seq<char>)
    requires forall i :: 0 <= i < |s| ==> s[i] != '\n'
    ensures LineLength(s) == |s|
  {
  }

  /** Keeping the last `n` characters can be done before or after appending more. */
  lemma LastNAppend(a: seq<char>, b: seq<char>, n: nat)
    ensures LastN(LastN(a, n) + b, n) == LastN(a + b, n)
  {
    var x := LastN(a, n);
    assert (x + b)[|x + b| - |LastN(x + b, n)|..] == (a + b)[|a + b| - |LastN(a + b, n)|..];
  }

  /** One more character of `seg` logged into the window. */
  lemma WindowStep(w0: seq<char>, seg: seq<char>, k: nat, w: seq<char>)
    requires k < |seg| && w == LastN(w0 + seg[..k], LOG_BUF_LEN)
    ensures LastN(w + [seg[k]], LOG_BUF_LEN) == LastN(w0 + seg[..k + 1], LOG_BUF_LEN)
  {
    LastNAppend(w0 + seg[..k], [seg[k]], LOG_BUF_LEN);
    assert (w0 + seg[..k]) + [seg[k]] == w0 + seg[..k + 1];
  }

  /** The window after logging `line` on top of `logged`. */
  lemma WindowAppend(w0: seq<char>, logged: seq<char>, line: seq<char>)
    ensures LastN(LastN(w0 + logged, LOG_BUF_LEN) + line, LOG_BUF_LEN) == LastN(w0 + (logged + line), LOG_BUF_LEN)
  {
    LastNAppend(w0 + logged, line, LOG_BUF_LEN);
    assert w0 + logged + line == w0 + (logged + line);
  }

  /** The ring index `(x & LOG_BUF_MASK)` of a 32-bit sum, which ignores the wrap. */
  lemma RingIndex(x: nat)
    ensures U32(x) % LOG_BUF_LEN == x % LOG_BUF_LEN
  {
    assert TWO32 == LOG_BUF_LEN * 262144;
    DivModBasics(x, TWO32);
    var q := x / TWO32;
    assert x == U32(x) + LOG_BUF_LEN * (262144 * q);
    DivModBasics(U32(x), LOG_BUF_LEN);
    DivModUnique(x, LOG_BUF_LEN, U32(x) / LOG_BUF_LEN + 262144 * q, U32(x) % LOG_BUF_LEN);
  }

  /** Two offsets less than a full turn apart land on different ring slots. */
  lemma RingDistinct(a: nat, i: nat, j: nat)
    requires i < j < i + LOG_BUF_LEN
    ensures (a + i) % LOG_BUF_LEN != (a + j) % LOG_BUF_LEN
  {
    DivModBasics(a + i, LOG_BUF_LEN);
    DivModBasics(a + j, LOG_BUF_LEN);
  }

  /** The `size` characters of the ring `b` from slot `start` on, oldest first. */
  ghost function Ring(b: seq<char>, start: nat, size: nat): (w: seq<char>)
    requires |b| == LOG_BUF_LEN
    ensures |w| == size
  {
    seq(size, i requires 0 <= i < size => b[(start + i) % LOG_BUF_LEN])
  }

  /** Storing `c` at the tail slot, advancing the head once the ring is full, keeps the last `LOG_BUF_LEN` characters. */
  lemma RingPush(b: seq<char>, start: nat, size: nat, c: char)
    requires |b| == LOG_BUF_LEN && size <= LOG_BUF_LEN
    ensures var b' := b[U32(start + size) % LOG_BUF_LEN := c];
      (size < LOG_BUF_LEN ==> Ring(b', start, size + 1) == LastN(Ring(b, start, size) + [c], LOG_BUF_LEN)) &&
      (size == LOG_BUF_LEN ==> Ring(b', U32(start + 1), size) == LastN(Ring(b, start, size) + [c], LOG_BUF_LEN))
  {
    RingIndex(start + size);
    if size < LOG_BUF_LEN {
      RingAppend(b, start, size, c);
    } else {
      RingRotate(b, start, c);
    }
  }

  /** Storing at the slot after the tail of a ring that is not full appends. */
  lemma RingAppend(b: seq<char>, start: nat, size: nat, c: char)
    requires |b| == LOG_BUF_LEN && size < LOG_BUF_LEN
    ensures Ring(b[(start + size) % LOG_BUF_LEN := c], start, size + 1) == Ring(b, start, size) + [c]
  {
    var b' := b[(start + size) % LOG_BUF_LEN := c];
    forall i | 0 <= i < size
      ensures Ring(b', start, size + 1)[i] == Ring(b, start, size)[i]
    {
      RingDistinct(start, i, size);
    }
  }

  /** Adding a whole number of 32-bit turns does not move a ring slot. */
  lemma RingTurns(y: nat, k: nat)
    ensures (y + TWO32 * k) % LOG_BUF_LEN == y % LOG_BUF_LEN
  {
    assert TWO32 * k == LOG_BUF_LEN * (262144 * k);
    DivModBasics(y, LOG_BUF_LEN);
    DivModUnique(y + TWO32 * k, LOG_BUF_LEN, y / LOG_BUF_LEN + 262144 * k, y % LOG_BUF_LEN);
  }

  /** A ring read from a 32-bit wrapped start reads the same slots. */
  lemma RingWrapped(b: seq<char>, x: nat, size: nat)
    requires |b| == LOG_BUF_LEN
    ensures Ring(b, U32(x), size) == Ring(b, x, size)
  {
    DivModBasics(x, TWO32);
    forall i | 0 <= i < size
      ensures Ring(b, U32(x), size)[i] == Ring(b, x, size)[i]
    {
      assert x + i == (U32(x) + i) + TWO32 * (x / TWO32);
      RingTurns(U32(x) + i, x / TWO32);
    }
  }

  /**
   * Storing over the oldest slot of a full ring and advancing its 32-bit
   * start drops the oldest character and appends the new one.
   */
  lemma RingRotate(b: seq<char>, start: nat, c: char)
    requires |b| == LOG_BUF_LEN
    ensures Ring(b[(start + LOG_BUF_LEN) % LOG_BUF_LEN := c], U32(start + 1), LOG_BUF_LEN)
         == Ring(b, start, LOG_BUF_LEN)[1..] + [c]
  {
    var b' := b[(start + LOG_BUF_LEN) % LOG_BUF_LEN := c];
    RingWrapped(b', start + 1, LOG_BUF_LEN);
    var old_ := Ring(b, start, LOG_BUF_LEN);
    var new_ := Ring(b', start + 1, LOG_BUF_LEN);
    forall i | 0 <= i < LOG_BUF_LEN - 1
      ensures new_[i] == old_[i + 1]
    {
      RingDistinct(start, i + 1, LOG_BUF_LEN);
    }
    assert new_[LOG_BUF_LEN - 1] == c;
  }

  class Log {
    /** The ring buffer `log_buf`. */
    var logBuf: array<char>
    /** The scratch buffer `buf` that `vsprintf` writes into. */
    var buf: array<char>
    var logStart: nat
    var logSize: nat
    var loggedChars: nat
    /** The static `msg_level`: -1 at the start of a line. */
    var msgLevel: int
    /** How many characters were ever logged; `logged_chars` is this modulo 2^32. */
    ghost var total: nat

    /** The logged characters still held by the ring, oldest first. */
    ghost var window: seq<char>

    ghost predicate Valid()
      reads this, logBuf
    {
      logBuf.Length == LOG_BUF_LEN && buf.Length == BUF_LEN && logBuf != buf &&
      logStart < TWO32 && logSize <= LOG_BUF_LEN && loggedChars == U32(total) &&
      -1 <= msgLevel <= 7 &&
      window == Ring(logBuf[..], logStart, logSize)
    }

    constructor ()
      ensures Valid() && window == [] && loggedChars == 0 && msgLevel == -1
      ensures fresh(logBuf) && fresh(buf)
    {
      logBuf := new char[LOG_BUF_LEN](_ => KString.NUL);
      buf := new char[BUF_LEN](_ => KString.NUL);
      logStart, logSize, loggedChars := 0, 0, 0;
      msgLevel := -1;
      window := [];
      total := 0;
    }

    /** One pass of the inner loop of `printk`: store `c` at the tail of the ring. */
    method EmitChar(c: char)
      requires Valid()
      modifies this`logStart, this`logSize, this`loggedChars, this`total, this`window, logBuf
      ensures Valid()
      ensures window == LastN(old(window) + [c], LOG_BUF_LEN)
      ensures total == old(total) + 1 && loggedChars == U32(old(loggedChars) + 1)
      ensures old(logSize) < LOG_BUF_LEN ==> logStart == old(logStart) && logSize == old(logSize) + 1
      ensures old(logSize) == LOG_BUF_LEN ==> logStart == U32(old(logStart) + 1) && logSize == LOG_BUF_LEN
    {
      var k := U32(logStart + logSize) % LOG_BUF_LEN;
      RingPush(logBuf[..], logStart, logSize, c);
      logBuf[k] := c;
      assert logBuf[..] == old(logBuf[..])[k := c];
      if logSize < LOG_BUF_LEN {
        logSize := logSize + 1;
      } else {
        logStart := U32(logStart + 1);
      }
      U32Add(total, 1);
      loggedChars := U32(loggedChars + 1);
      total := total + 1;
      window := LastN(window + [c], LOG_BUF_LEN);
    }

    /** `buf[at..]` holds the characters of `s`. */
    ghost predicate Holds(at: nat, s: seq<char>)
      reads this, buf
    {
      at + |s| <= buf.Length && forall i :: 0 <= i < |s| ==> buf[at + i] == s[i]
    }

    /**
     * The inner loop of `printk`: log the characters `seg` held at
     * `buf[from..end]` up to and including the first newline, or up to
     * `end`. On a newline `p` stays on it.
     */
    method EmitLine(from: nat, end: nat, ghost seg: seq<char>) returns (p: nat, lineFeed: bool)
      requires Valid() && from < end < BUF_LEN && end == from + |seg| && Holds(from, seg)
      modifies this`logStart, this`logSize, this`loggedChars, this`total, this`window, logBuf
      ensures Valid()
      ensures var n := LineLength(seg);
        lineFeed == (seg[n - 1] == '\n') &&
        p == (if lineFeed then from + n - 1 else from + n) &&
        window == LastN(old(window) + seg[..n], LOG_BUF_LEN) &&
        total == old(total) + n
    {
      p := from;
      lineFeed := false;
      ghost var w0 := window;
      ghost var c0 := total;
      while p < end
        invariant Valid() && from <= p <= end && Holds(from, seg)
        invariant forall i :: 0 <= i < p - from ==> seg[i] != '\n'
        invariant window == LastN(w0 + seg[..p - from], LOG_BUF_LEN)
        invariant total == c0 + (p - from)
      {
        var c := buf[p];
        assert c == seg[p - from];
        WindowStep(w0, seg, p - from, window);
        EmitChar(c);
        if c == '\n' {
          LineLengthAt(seg, p - from);
          lineFeed := true;
          return;
        }
        p := p + 1;
      }
      LineLengthNone(seg);
      assert seg[..p - from] == seg;
    }

    /** `vsprintf` writing the formatted text, with its NUL, to `buf + 3`. */
    method StoreText(out: seq<char>)
      requires Valid() && 3 + |out| <= BUF_LEN
      modifies buf
      ensures Holds(3, out)
    {
      var k := 0;
      while k < |out|
        invariant 0 <= k <= |out|
        invariant Holds(3, out[..k])
      {
        buf[3 + k] := out[k];
        k := k + 1;
      }
      assert out[..k] == out;
    }

    /**
     * At a line start (`msgLevel` < 0), check the priority prefix of the
     * line `s` at `buf[p]`; when it is missing write `<4>` into the three
     * characters before the line. Returns where the line, prefix included,
     * now starts.
     */
    method CheckPrefix(p: nat, end: nat, ghost s: seq<char>) returns (q: nat)
      requires Valid() && 3 <= p < end < BUF_LEN && end == p + |s|
      requires buf[end] == KString.NUL && Holds(p, s)
      modifies this`msgLevel, buf
      ensures Valid()
      ensures q == p - |LinePrefix(old(msgLevel), s)|
      ensures Holds(q, LinePrefix(old(msgLevel), s) + s)
      ensures forall i :: p <= i < BUF_LEN ==> buf[i] == old(buf[i])
      ensures msgLevel == LineLevel(old(msgLevel), s)
    {
      q := p;
      if msgLevel < 0 {
        assert buf[p] == s[0];
        assert |s| >= 3 ==> buf[p + 1] == s[1] && buf[p + 2] == s[2];
        if buf[q] != '<' || buf[q + 1] < '0' || buf[q + 1] > '7' || buf[q + 2] != '>' {
          q := q - 3;
          WriteDefaultPrefix(q, s);
          assert buf[q + 1] == (DEFAULT_PREFIX + s)[1] == '4';
        } else {
          assert buf[p + 1] == s[1] && buf[p + 2] == s[2];
        }
        msgLevel := buf[q + 1] as int - '0' as int;
      } else {
        assert LinePrefix(old(msgLevel), s) + s == s;
      }
    }

    /** Write `<4>` into `buf[q..q + 3]`, just before the line `s`. */
    method WriteDefaultPrefix(q: nat, ghost s: seq<char>)
      requires Valid() && Holds(q + 3, s)
      modifies buf
      ensures Holds(q, DEFAULT_PREFIX + s)
      ensures forall i :: q + 3 <= i < BUF_LEN ==> buf[i] == old(buf[i])
    {
      buf[q] := '<';
      buf[q + 1] := (DEFAULT_MESSAGE_LOGLEVEL + '0' as int) as char;
      buf[q + 2] := '>';
      forall i | 3 <= i < 3 + |s|
        ensures buf[q + i] == (DEFAULT_PREFIX + s)[i]
      {
        assert buf[q + 3 + (i - 3)] == s[i - 3];
      }
    }

    /**
     * One pass of the outer loop of `printk`, for the line `s` at `buf[p]`
     * (the formatted text ends at the NUL in `buf[end]`): the priority prefix
     * is checked at a line start, then the line is logged. Returns where the
     * outer loop goes on.
     */
    method PrintLine(p: nat, end: nat, ghost s: seq<char>) returns (next: nat)
      requires Valid() && 3 <= p < end < BUF_LEN && end == p + |s|
      requires buf[end] == KString.NUL && Holds(p, s)
      modifies this`logStart, this`logSize, this`loggedChars, this`total, this`window, this`msgLevel, logBuf, buf
      ensures Valid() && buf[end] == KString.NUL
      ensures var n := LineLength(s);
        Holds(next, s[n..]) && (next + |s[n..]| == end || (next == end + 1 && s[n..] == [])) &&
        next == (if s[n - 1] == '\n' then p + n else end + 1) &&
        msgLevel == NextLevel(old(msgLevel), s) &&
        window == LastN(old(window) + LineText(old(msgLevel), s), LOG_BUF_LEN) &&
        total == old(total) + |LineText(old(msgLevel), s)|
    {
      var q := CheckPrefix(p, end, s);
      ghost var seg := LinePrefix(old(msgLevel), s) + s;
      PrefixedLine(old(msgLevel), s);
      var lineFeed;
      next, lineFeed := EmitLine(q, end, seg);
      if lineFeed {
        msgLevel := -1;
      }
      next := next + 1;
    }

    /**
     * The outer loop of `printk` over the formatted text, which sits at
     * `buf[3..end]` with its NUL at `buf[end]`.
     */
    method LogText(end: nat, ghost text: seq<char>)
      requires Valid() && end == 3 + |text| && end < BUF_LEN
      requires Holds(3, text) && buf[end] == KString.NUL
      modifies this`logStart, this`logSize, this`loggedChars, this`total, this`window, this`msgLevel, logBuf, buf
      ensures Valid()
      ensures var r := LogLines(old(msgLevel), text);
        msgLevel == r.level &&
        window == LastN(old(window) + r.text, LOG_BUF_LEN) &&
        total == old(total) + |r.text|
    {
      var p := 3;
      ghost var logged: seq<char> := [];
      ghost var rest := text;
      ghost var r0 := LogLines(msgLevel, text);
      ghost var w0 := window;
      ghost var c0 := total;
      while p < end
        invariant Valid() && 3 <= p && buf[end] == KString.NUL
        invariant p + |rest| == end || (p == end + 1 && rest == [])
        invariant Holds(p, rest)
        invariant r0 == Logged(logged + LogLines(msgLevel, rest).text, LogLines(msgLevel, rest).level)
        invariant window == LastN(w0 + logged, LOG_BUF_LEN)
        invariant total == c0 + |logged|
        decreases end + 1 - p
      {
        ghost var level := msgLevel;
        ghost var line := LineText(level, rest);
        ghost var n := LineLength(rest);
        WindowAppend(w0, logged, line);
        LinesStep(level, rest, logged, r0);
        p := PrintLine(p, end, rest);
        logged := logged + line;
        rest := rest[n..];
      }
    }

    /**
     * The part of `printk` after formatting: `out` is what `vsprintf` left in
     * `buf + 3`, `len` characters and the NUL. Logs it line by line.
     */
    method LogFormatted(out: seq<char>, len: nat, ghost text: seq<char>)
      requires Valid() && out == text + [KString.NUL] && len == |text| && 3 + |out| <= BUF_LEN
      modifies this`logStart, this`logSize, this`loggedChars, this`total, this`window, this`msgLevel, logBuf, buf
      ensures Valid()
      ensures var r := LogLines(old(msgLevel), text);
        msgLevel == r.level &&
        window == LastN(old(window) + r.text, LOG_BUF_LEN) &&
        total == old(total) + |r.text| && loggedChars == U32(old(loggedChars) + |r.text|)
    {
      StoreText(out);
      assert buf[3 + len] == out[len] == KString.NUL;
      assert forall i :: 0 <= i < |text| ==> buf[3 + i] == out[i] == text[i];
      LogText(3 + len, text);
      ghost var n := |LogLines(old(msgLevel), text).text|;
      U32Add(old(total), n);
      assert loggedChars == U32(old(total) + n);
    }

    /**
     * `printk`: format `fmt` with `args` into `buf + 3`, then log it line by
     * line; returns the length of the formatted text. The text must fit the
     * 1024-character scratch buffer behind the three reserved characters,
     * which the source leaves to its callers.
     */
    method Printk(fmt: seq<char>, args: seq<Vsprintf.Arg>) returns (i: int)
      requires Valid() && KString.NUL !in fmt
      requires 3 + |Vsprintf.Format(fmt, args, Vsprintf.Progress(0, 0, [], [])).out| + 1 <= BUF_LEN
      modifies this`logStart, this`logSize, this`loggedChars, this`total, this`window, this`msgLevel, logBuf, buf
      ensures Valid()
      ensures var text := Vsprintf.Format(fmt, args, Vsprintf.Progress(0, 0, [], [])).out;
        var r := LogLines(old(msgLevel), text);
        i == |text| && msgLevel == r.level &&
        window == LastN(old(window) + r.text, LOG_BUF_LEN) &&
        total == old(total) + |r.text| && loggedChars == U32(old(loggedChars) + |r.text|)
    {
      ghost var text := Vsprintf.Format(fmt, args, Vsprintf.Progress(0, 0, [], [])).out;
      var out, len, marks := Vsprintf.Vsprintf(fmt, args);
      assert loggedChars == old(loggedChars) && total == old(total) && msgLevel == old(msgLevel) && window == old(window);
      LogFormatted(out, len, text);
      i := len;
    }
  }
}
