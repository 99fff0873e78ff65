/** The length-prefixed frame log and the task that tails it
    (crates/coordination/src/file.rs, `append_frame`, `decode_frames`, `spawn_tail`). */
module FrameLog {
  type Byte = b: int | 0 <= b < 256
  type Bytes = seq<Byte>

  const U32: int := 0x1_0000_0000

  /** Messages whose length fits the prefix; `append_frame` refuses any other. */
  type Message = m: Bytes | |m| < U32

  function ToLe(n: nat): (r: Bytes)
    requires n < U32
    ensures |r| == 4
  {
    var n1: int := n / 256;
    var n2: int := n1 / 256;
    var b0: int, b1: int, b2: int, b3: int := n % 256, n1 % 256, n2 % 256, n2 / 256;
    [b0, b1, b2, b3]
  }

  function FromLe(b: Bytes): (n: nat)
    requires |b| >= 4
    ensures n < U32
  {
    var b0: int, b1: int, b2: int, b3: int := b[0], b[1], b[2], b[3];
    b0 + 256 * (b1 + 256 * (b2 + 256 * b3))
  }

  /** The least significant byte comes first. */
  lemma LeWeights(b: Bytes)
    requires |b| >= 4
    ensures FromLe(b) == b[0] as int + 0x100 * (b[1] as int) + 0x1_0000 * (b[2] as int) + 0x100_0000 * (b[3] as int)
  {
  }

  lemma LeRoundTrip(n: nat)
    requires n < U32
    ensures FromLe(ToLe(n)) == n
  {
  }

  lemma LeUnique(b: Bytes)
    requires |b| == 4
    ensures ToLe(FromLe(b)) == b
  {
    var b0: int, b1: int, b2: int, b3: int := b[0], b[1], b[2], b[3];
    var n2: int := b2 + 256 * b3;
    var n1: int := b1 + 256 * n2;
    var n: int := b0 + 256 * n1;
    assert n / 256 == n1 && n % 256 == b0;
    assert n1 / 256 == n2 && n1 % 256 == b1;
    assert n2 / 256 == b3 && n2 % 256 == b2;
  }

  lemma LeOfPrefix(b: Bytes)
    requires |b| >= 4
    ensures FromLe(b) == FromLe(b[..4]) && FromLe(b) == FromLe([b[0], b[1], b[2], b[3]])
  {
  }

  function Frame(m: Message): (r: Bytes)
    ensures |r| == 4 + |m|
  {
    ToLe(|m|) + m
  }

  function EncodeAll(ms: seq<Message>): Bytes {
    if ms == [] then [] else Frame(ms[0]) + EncodeAll(ms[1..])
  }

  lemma {:induction false} EncodeConcat(a: seq<Message>, b: seq<Message>)
    ensures EncodeAll(a + b) == EncodeAll(a) + EncodeAll(b)
  {
    if a == [] {
      assert a + b == b;
    } else {
      EncodeConcat(a[1..], b);
      assert (a + b)[1..] == a[1..] + b && (a + b)[0] == a[0];
    }
  }

  // ---- Decoding -------------------------------------------------------------

  /** A whole frame starts the buffer. */
  predicate HasFrame(buf: Bytes) { |buf| >= 4 && 4 + FromLe(buf) <= |buf| }

  /** The leading whole frames and how many bytes they take. */
  function Decode(buf: Bytes): (r: (seq<Message>, nat))
    ensures r.1 <= |buf|
  {
    if !HasFrame(buf) then ([], 0)
    else
      var n := 4 + FromLe(buf);
      var rest := Decode(buf[n..]);
      ([buf[4..n]] + rest.0, n + rest.1)
  }

  method DecodeFrames(buf: Bytes) returns (out: seq<Message>)
    ensures out == Decode(buf).0
  {
    hide FromLe;
    out := [];
    var i := 0;
    assert buf[0..] == buf;
    while i + 4 <= |buf|
      invariant i <= |buf|
      invariant out + Decode(buf[i..]).0 == Decode(buf).0
    {
      var len := FromLe([buf[i], buf[i + 1], buf[i + 2], buf[i + 3]]);
      LeOfPrefix(buf[i..]);
      if i + 4 + len > |buf| {
        break;
      }
      assert buf[i..][4 + len..] == buf[i + 4 + len..];
      assert buf[i..][4..4 + len] == buf[i + 4..i + 4 + len];
      ghost var rest := Decode(buf[i + 4 + len..]).0;
      assert Decode(buf[i..]).0 == [buf[i + 4..i + 4 + len]] + rest;
      assert out + ([buf[i + 4..i + 4 + len]] + rest) == (out + [buf[i + 4..i + 4 + len]]) + rest;
      out := out + [buf[i + 4..i + 4 + len]];
      i := i + 4 + len;
    }
  }

  lemma FrameFirst(m: Message, rest: Bytes)
    ensures HasFrame(Frame(m) + rest)
    ensures var d := Decode(rest); Decode(Frame(m) + rest) == ([m] + d.0, 4 + |m| + d.1)
  {
    hide FromLe, ToLe;
    var buf := Frame(m) + rest;
    LeRoundTrip(|m|);
    assert buf[..4] == ToLe(|m|);
    LeOfPrefix(buf);
    assert buf[4..4 + |m|] == m && buf[4 + |m|..] == rest;
  }

  lemma EncodeFirst(ms: seq<Message>, rest: Bytes)
    requires ms != []
    ensures EncodeAll(ms) + rest == Frame(ms[0]) + (EncodeAll(ms[1..]) + rest)
    ensures |EncodeAll(ms)| == 4 + |ms[0]| + |EncodeAll(ms[1..])|
  {
    hide Frame;
    var f, e := Frame(ms[0]), EncodeAll(ms[1..]);
    assert EncodeAll(ms) == f + e;
    assert (f + e) + rest == f + (e + rest);
  }

  /** Appended frames come back first, then whatever the rest decodes to. */
  lemma {:induction false} DecodeAppended(ms: seq<Message>, rest: Bytes)
    ensures var d := Decode(rest); Decode(EncodeAll(ms) + rest) == (ms + d.0, |EncodeAll(ms)| + d.1)
  {
    hide Decode, Frame;
    if ms == [] {
      assert EncodeAll(ms) + rest == rest && ms + Decode(rest).0 == Decode(rest).0;
    } else {
      hide EncodeAll;
      var m, tail := ms[0], ms[1..];
      DecodeAppended(tail, rest);
      FrameFirst(m, EncodeAll(tail) + rest);
      EncodeFirst(ms, rest);
      assert [m] + (tail + Decode(rest).0) == ms + Decode(rest).0;
    }
  }

  /** What is decoded re-encodes to exactly the bytes it was decoded from. */
  lemma {:induction false} DecodedBytes(buf: Bytes)
    ensures var d := Decode(buf); EncodeAll(d.0) == buf[..d.1]
    decreases |buf|
  {
    hide FromLe, ToLe;
    if HasFrame(buf) {
      var n := 4 + FromLe(buf);
      DecodedBytes(buf[n..]);
      var d := Decode(buf[n..]);
      LeUnique(buf[..4]);
      LeOfPrefix(buf);
      var m: Message := buf[4..n];
      assert Frame(m) == buf[..n];
      assert ([m] + d.0)[1..] == d.0;
      assert buf[..n + d.1] == buf[..n] + buf[n..][..d.1];
    }
  }

  /** A strict prefix of a frame yields nothing. */
  lemma TornFrameYieldsNothing(m: Message, k: nat)
    requires k < |Frame(m)|
    ensures Decode(Frame(m)[..k]) == ([], 0)
  {
    hide FromLe, ToLe;
    var torn := Frame(m)[..k];
    if k >= 4 {
      LeRoundTrip(|m|);
      assert torn[..4] == ToLe(|m|);
      LeOfPrefix(torn);
    }
  }

  /** Decoding appended frames, with or without a torn one at the end, gives exactly those frames. */
  lemma RoundTrip(ms: seq<Message>, m: Message, k: nat)
    requires k < |Frame(m)|
    ensures Decode(EncodeAll(ms)).0 == ms
    ensures Decode(EncodeAll(ms) + Frame(m)[..k]) == (ms, |EncodeAll(ms)|)
  {
    DecodeAppended(ms, []);
    assert EncodeAll(ms) + [] == EncodeAll(ms);
    TornFrameYieldsNothing(m, k);
    DecodeAppended(ms, Frame(m)[..k]);
  }

  /** The buffer is a sequence of whole frames. */
  predicate Whole(buf: Bytes) { Decode(buf).1 == |buf| }

  lemma WholeIsEncoded(buf: Bytes, ms: seq<Message>)
    ensures Whole(buf) ==> buf == EncodeAll(Decode(buf).0)
    ensures buf == EncodeAll(ms) ==> Whole(buf) && Decode(buf).0 == ms
  {
    DecodedBytes(buf);
    DecodeAppended(ms, []);
    assert EncodeAll(ms) + [] == EncodeAll(ms);
  }

  // ---- The log file and the tail task ---------------------------------------

  class LogFile {
    var bytes: Bytes

    constructor ()
      ensures bytes == []
    {
      bytes := [];
    }

    method AppendFrame(msg: Bytes) returns (ok: bool)
      modifies this
      ensures ok <==> |msg| < U32
      ensures bytes == if |msg| < U32 then old(bytes) + Frame(msg) else old(bytes)
      ensures ok ==> bytes == old(bytes) + ToLe(|msg|) + msg
    {
      if |msg| >= U32 {
        return false;
      }
      bytes := bytes + ToLe(|msg|);
      bytes := bytes + msg;
      assert bytes == old(bytes) + Frame(msg);
      ok := true;
    }
  }

  /** Where the task is in the log and what it has sent on. */
  datatype TailState = TailState(offset: nat, delivered: seq<Message>)

  /** One poll that finds `len` bytes by metadata and then reads up to `end`. */
  function PollStep(st: TailState, log: Bytes, len: nat, end: nat): TailState
    requires len <= end <= |log|
  {
    if len > st.offset then
      TailState(end, st.delivered + Decode(log[st.offset..end]).0)
    else if len < st.offset then st.(offset := len)
    else st
  }

  class TailTask {
    var offset: nat
    var delivered: seq<Message>

    function State(): TailState
      reads this
    {
      TailState(offset, delivered)
    }

    constructor (start: nat)
      ensures State() == TailState(start, [])
    {
      offset, delivered := start, [];
    }

    method Poll(log: Bytes, len: nat, end: nat)
      requires len <= end <= |log|
      modifies this
      ensures State() == PollStep(old(State()), log, len, end)
      ensures len < old(offset) ==> offset == len && delivered == old(delivered)
    {
      if len > offset {
        var buf := log[offset..end];
        offset := offset + |buf|;
        var frames := DecodeFrames(buf);
        delivered := delivered + frames;
      } else if len < offset {
        offset := len;
      }
    }
  }

  // ---- Runs over an append-only log -----------------------------------------

  datatype Poll = Poll(len: nat, end: nat)

  function NextOffset(offset: nat, p: Poll): nat { if p.len > offset then p.end else offset }

  /** The log is append-only: no poll finds it shorter than what was already read. */
  predicate Grows(offset: nat, polls: seq<Poll>, size: nat)
    decreases |polls|
  {
    && offset <= size
    && (polls != [] ==>
          && offset <= polls[0].len <= polls[0].end <= size
          && Grows(NextOffset(offset, polls[0]), polls[1..], size))
  }

  function Tail(log: Bytes, st: TailState, polls: seq<Poll>): TailState
    requires Grows(st.offset, polls, |log|)
    decreases |polls|
  {
    if polls == [] then st else Tail(log, PollStep(st, log, polls[0].len, polls[0].end), polls[1..])
  }

  /** Every read of the run is a sequence of whole frames. */
  predicate AllReadsWhole(log: Bytes, offset: nat, polls: seq<Poll>)
    requires Grows(offset, polls, |log|)
    decreases |polls|
  {
    polls != [] ==>
      && (polls[0].len > offset ==> Whole(log[offset..polls[0].end]))
      && AllReadsWhole(log, NextOffset(offset, polls[0]), polls[1..])
  }

  /** The run delivers the very bytes it read if and only if no read ended inside a frame. The
      offset advances past a torn frame, so its bytes are never read again. */
  lemma {:induction false} DeliversEverythingIff(log: Bytes, offset: nat, polls: seq<Poll>)
    requires Grows(offset, polls, |log|)
    ensures var st := Tail(log, TailState(offset, []), polls);
            && offset <= st.offset <= |log|
            && |EncodeAll(st.delivered)| <= st.offset - offset
            && (EncodeAll(st.delivered) == log[offset..st.offset] <==> AllReadsWhole(log, offset, polls))
    decreases |polls|
  {
    hide Decode, EncodeAll;
    if polls == [] {
      EncodeNothing();
    } else {
      var p, rest := polls[0], polls[1..];
      DeliversEverythingIff(log, NextOffset(offset, p), rest);
      if p.len > offset {
        var d := Decode(log[offset..p.end]);
        var st := Tail(log, TailState(p.end, []), rest);
        assert [] + d.0 == d.0 && d.0 + [] == d.0;
        TailFrom(log, TailState(p.end, []), d.0, rest);
        EncodeConcat(d.0, st.delivered);
        DecodedBytes(log[offset..p.end]);
        DecodedLength(log[offset..p.end]);
        SplitRead(log, offset, p.end, st.offset, d.1, EncodeAll(st.delivered));
      }
    }
  }

  lemma EncodeNothing()
    ensures EncodeAll([]) == []
  {
  }

  lemma DecodedLength(buf: Bytes)
    ensures Decode(buf).1 <= |buf| && |EncodeAll(Decode(buf).0)| == Decode(buf).1
  {
    DecodedBytes(buf);
  }

  /** Frames already delivered stay in front and do not affect the rest of the run. */
  lemma {:induction false} TailFrom(log: Bytes, st: TailState, before: seq<Message>, polls: seq<Poll>)
    requires Grows(st.offset, polls, |log|)
    ensures var r := Tail(log, st, polls);
            Tail(log, TailState(st.offset, before + st.delivered), polls) == TailState(r.offset, before + r.delivered)
    decreases |polls|
  {
    hide Decode;
    if polls != [] {
      var p := polls[0];
      TailFrom(log, PollStep(st, log, p.len, p.end), before, polls[1..]);
      assert p.len > st.offset ==>
        before + (st.delivered + Decode(log[st.offset..p.end]).0) == (before + st.delivered)
          + Decode(log[st.offset..p.end]).0;
    }
  }

  /** Comparing what was decoded from one read plus the later deliveries with the log. */
  lemma SplitRead(log: Bytes, a: nat, b: nat, c: nat, used: nat, later: Bytes)
    requires a <= b <= c <= |log| && used <= b - a && |later| <= c - b
    ensures log[a..b][..used] + later == log[a..c] <==> used == b - a && later == log[b..c]
  {
    var x := log[a..b][..used] + later;
    assert log[a..c] == log[a..b] + log[b..c];
    if x == log[a..c] {
      assert |x| == used + |later|;
      assert later == x[used..];
    }
  }

  // ---- Frame boundaries -----------------------------------------------------

  /** Position `at` is the end of the first `j` frames written from `start`. */
  predicate Boundary(fs: seq<Message>, start: nat, at: nat, j: nat) {
    j <= |fs| && at == start + |EncodeAll(fs[..j])|
  }

  lemma LogSplit(log: Bytes, start: nat, fs: seq<Message>, a: nat, i: nat)
    requires start <= |log| && log[start..] == EncodeAll(fs) && Boundary(fs, start, a, i)
    ensures a <= |log| && log[a..] == EncodeAll(fs[i..])
  {
    assert fs == fs[..i] + fs[i..];
    EncodeConcat(fs[..i], fs[i..]);
    assert log[a..] == log[start..][a - start..];
  }

  lemma BoundaryReadIsWhole(log: Bytes, start: nat, fs: seq<Message>, a: nat, i: nat, b: nat, j: nat)
    requires start <= |log| && log[start..] == EncodeAll(fs) && Boundary(fs, start, a, i) && a <= b <= |log|
    requires i <= j && Boundary(fs, start, b, j)
    ensures Whole(log[a..b]) && Decode(log[a..b]).0 == fs[i..j]
  {
    hide Decode, EncodeAll, Whole;
    LogSplit(log, start, fs, a, i);
    assert fs[..j] == fs[..i] + fs[i..j] && fs[i..] == fs[i..j] + fs[j..];
    EncodeConcat(fs[..i], fs[i..j]);
    EncodeConcat(fs[i..j], fs[j..]);
    assert log[a..b] == log[a..][..b - a];
    WholeIsEncoded(log[a..b], fs[i..j]);
  }

  /** Frames read whole from the head of the log are the first frames written. */
  lemma WholeReadIsPrefix(fs: seq<Message>, gs: seq<Message>, rest: Bytes)
    requires EncodeAll(fs) == EncodeAll(gs) + rest
    ensures |gs| <= |fs| && fs[..|gs|] == gs
  {
    hide Decode, EncodeAll;
    DecodeAppended(gs, rest);
    DecodeAppended(fs, []);
    DecodeNothing();
    assert EncodeAll(fs) + [] == EncodeAll(fs) && fs + [] == fs;
    assert fs == gs + Decode(rest).0;
  }

  lemma NextBoundary(fs: seq<Message>, start: nat, a: nat, i: nat, gs: seq<Message>)
    requires Boundary(fs, start, a, i) && |gs| <= |fs| - i && fs[i..][..|gs|] == gs
    ensures Boundary(fs, start, a + |EncodeAll(gs)|, i + |gs|)
  {
    hide EncodeAll;
    assert fs[..i + |gs|] == fs[..i] + gs;
    EncodeConcat(fs[..i], gs);
  }

  lemma WholePrefix(fs: seq<Message>, buf: Bytes, rest: Bytes) returns (n: nat)
    requires Whole(buf) && EncodeAll(fs) == buf + rest
    ensures n <= |fs| && EncodeAll(fs[..n]) == buf
  {
    hide Decode, EncodeAll;
    var gs := Decode(buf).0;
    WholeIsEncoded(buf, gs);
    WholeReadIsPrefix(fs, gs, rest);
    n := |gs|;
  }

  lemma WholeReadEndsOnBoundary(tail: Bytes, fs: seq<Message>, start: nat, a: nat, i: nat, len: nat) returns (j: nat)
    requires Boundary(fs, start, a, i) && tail == EncodeAll(fs[i..]) && len <= |tail|
    requires Whole(tail[..len])
    ensures i <= j && Boundary(fs, start, a + len, j)
  {
    hide EncodeAll, Whole;
    assert tail == tail[..len] + tail[len..];
    var n := WholePrefix(fs[i..], tail[..len], tail[len..]);
    NextBoundary(fs, start, a, i, fs[i..][..n]);
    j := i + n;
  }

  lemma DecodeNothing()
    ensures Decode([]) == ([], 0)
  {
  }

  /** From a boundary, a read is whole exactly when it ends on a boundary. */
  lemma WholeIffBoundary(log: Bytes, start: nat, fs: seq<Message>, a: nat, i: nat, b: nat)
    requires start <= |log| && log[start..] == EncodeAll(fs) && Boundary(fs, start, a, i) && a <= b <= |log|
    ensures Whole(log[a..b]) <==> exists j :: i <= j && Boundary(fs, start, b, j)
  {
    hide *;
    LogSplit(log, start, fs, a, i);
    if Whole(log[a..b]) {
      assert log[a..][..b - a] == log[a..b];
      var j := WholeReadEndsOnBoundary(log[a..], fs, start, a, i, b - a);
    }
    if j :| i <= j && Boundary(fs, start, b, j) {
      BoundaryReadIsWhole(log, start, fs, a, i, b, j);
    }
  }

  /** Every poll of the run that reads ends on a frame boundary. */
  predicate EndsOnBoundaries(fs: seq<Message>, start: nat, offset: nat, polls: seq<Poll>, js: seq<nat>)
    decreases |polls|
  {
    |js| == |polls| && (polls != [] ==>
      && (polls[0].len > offset ==> Boundary(fs, start, polls[0].end, js[0]))
      && EndsOnBoundaries(fs, start, NextOffset(offset, polls[0]), polls[1..], js[1..]))
  }

  lemma BoundaryOrder(fs: seq<Message>, start: nat, a: nat, i: nat, b: nat, j: nat)
    requires Boundary(fs, start, a, i) && Boundary(fs, start, b, j) && a < b
    ensures i < j
  {
    if j <= i {
      assert fs[..i] == fs[..j] + fs[j..i];
      EncodeConcat(fs[..j], fs[j..i]);
    }
  }

  lemma DeliveringRead(log: Bytes, start: nat, fs: seq<Message>, a: nat, i: nat, p: Poll, j: nat)
    requires start <= |log| && log[start..] == EncodeAll(fs) && Boundary(fs, start, a, i)
    requires Boundary(fs, start, p.end, j)
    requires a < p.len <= p.end <= |log|
    ensures i <= j <= |fs| && PollStep(TailState(a, []), log, p.len, p.end) == TailState(p.end, fs[i..j])
  {
    BoundaryOrder(fs, start, a, i, p.end, j);
    BoundaryReadIsWhole(log, start, fs, a, i, p.end, j);
    assert [] + fs[i..j] == fs[i..j];
    hide Decode, EncodeAll, Whole;
  }

  lemma BoundaryInside(fs: seq<Message>, start: nat, at: nat, j: nat)
    requires Boundary(fs, start, at, j)
    ensures j <= |fs|
  {
  }

  /** Reads that start and end on boundaries deliver every frame once, in order, up to where the
      task has read. */
  lemma {:induction false} BoundaryReadsDeliver(log: Bytes, start: nat, fs: seq<Message>, a: nat, i: nat,
                                                polls: seq<Poll>, js: seq<nat>) returns (k: nat)
    requires start <= |log| && log[start..] == EncodeAll(fs) && Boundary(fs, start, a, i)
    requires Grows(a, polls, |log|) && EndsOnBoundaries(fs, start, a, polls, js)
    ensures var st := Tail(log, TailState(a, []), polls);
            i <= k <= |fs| && Boundary(fs, start, st.offset, k) && st.delivered == fs[i..k]
    decreases |polls|
  {
    BoundaryInside(fs, start, a, i);
    if polls == [] {
      k := i;
    } else {
      var p, rest := polls[0], polls[1..];
      hide Decode, EncodeAll, Whole, Boundary;
      if p.len > a {
        DeliveringRead(log, start, fs, a, i, p, js[0]);
        k := BoundaryReadsDeliver(log, start, fs, p.end, js[0], rest, js[1..]);
        hide EndsOnBoundaries, Grows, PollStep;
        assert fs[i..js[0]] + [] == fs[i..js[0]];
        TailFrom(log, TailState(p.end, []), fs[i..js[0]], rest);
        assert fs[i..js[0]] + fs[js[0]..k] == fs[i..k];
      } else {
        k := BoundaryReadsDeliver(log, start, fs, a, i, rest, js[1..]);
      }
    }
  }

  /** A run delivers all it read if and only if every read ended on a frame boundary. */
  lemma DeliversFramesIff(log: Bytes, start: nat, fs: seq<Message>, polls: seq<Poll>)
    requires start <= |log| && log[start..] == EncodeAll(fs) && Grows(start, polls, |log|)
    ensures var st := Tail(log, TailState(start, []), polls);
            (start <= st.offset <= |log| && EncodeAll(st.delivered) == log[start..st.offset])
              <==> exists js :: EndsOnBoundaries(fs, start, start, polls, js)
  {
    DeliversEverythingIff(log, start, polls);
    assert fs[..0] == [];
    assert Boundary(fs, start, start, 0);
    if AllReadsWhole(log, start, polls) {
      var js := WholeRunEndsOnBoundaries(log, start, fs, start, 0, polls);
    }
    if js :| EndsOnBoundaries(fs, start, start, polls, js) {
      BoundaryRunIsWhole(log, start, fs, start, 0, polls, js);
    }
  }

  lemma {:induction false} WholeRunEndsOnBoundaries(log: Bytes, start: nat, fs: seq<Message>, a: nat, i: nat,
                                                    polls: seq<Poll>) returns (js: seq<nat>)
    requires start <= |log| && log[start..] == EncodeAll(fs) && Boundary(fs, start, a, i) && Grows(a, polls, |log|)
    requires AllReadsWhole(log, a, polls)
    ensures EndsOnBoundaries(fs, start, a, polls, js)
    decreases |polls|
  {
    hide EncodeAll, Whole, Boundary;
    js := [];
    if polls != [] {
      var p, j := polls[0], i;
      if p.len > a {
        WholeIffBoundary(log, start, fs, a, i, p.end);
        j :| i <= j && Boundary(fs, start, p.end, j);
      }
      var rest := WholeRunEndsOnBoundaries(log, start, fs, NextOffset(a, p), j, polls[1..]);
      js := [j] + rest;
      assert js[1..] == rest;
    }
  }

  lemma {:induction false} BoundaryRunIsWhole(log: Bytes, start: nat, fs: seq<Message>, a: nat, i: nat,
                                              polls: seq<Poll>, js: seq<nat>)
    requires start <= |log| && log[start..] == EncodeAll(fs) && Boundary(fs, start, a, i) && Grows(a, polls, |log|)
    requires EndsOnBoundaries(fs, start, a, polls, js)
    ensures AllReadsWhole(log, a, polls)
    decreases |polls|
  {
    hide EncodeAll, Whole, Boundary;
    if polls != [] {
      var p := polls[0];
      if p.len > a {
        BoundaryOrder(fs, start, a, i, p.end, js[0]);
        BoundaryReadIsWhole(log, start, fs, a, i, p.end, js[0]);
      }
      BoundaryRunIsWhole(log, start, fs, NextOffset(a, p), if p.len > a then js[0] else i, polls[1..], js[1..]);
    }
  }

  /** `i` frames are complete in the first `a` bytes of the log. */
  predicate CompleteAt(fs: seq<Message>, a: nat, i: nat) {
    i <= |fs| && |EncodeAll(fs[..i])| <= a && (i < |fs| ==> a < |EncodeAll(fs[..i + 1])|)
  }

  /** The task starts at the length the log has when it is spawned, which may lie inside a frame that is
      being appended. It delivers every frame not complete then, up to a boundary it reaches, if and only
      if it started on a boundary and every read ended on one. */
  lemma SpawnedTailDeliversIff(log: Bytes, fs: seq<Message>, a: nat, i: nat, polls: seq<Poll>)
    requires log == EncodeAll(fs) && CompleteAt(fs, a, i) && Grows(a, polls, |log|)
    ensures var st := Tail(log, TailState(a, []), polls);
            (exists j :: i <= j && Boundary(fs, 0, st.offset, j) && st.delivered == fs[i..j])
              <==> Boundary(fs, 0, a, i) && exists js :: EndsOnBoundaries(fs, 0, a, polls, js)
  {
    hide Decode, EncodeAll, Whole;
    var st := Tail(log, TailState(a, []), polls);
    assert log[0..] == log;
    if j :| i <= j && Boundary(fs, 0, st.offset, j) && st.delivered == fs[i..j] {
      DeliversEverythingIff(log, a, polls);
      assert fs[..j] == fs[..i] + fs[i..j];
      EncodeConcat(fs[..i], fs[i..j]);
      assert Boundary(fs, 0, a, i);
      BoundaryReadIsWhole(log, 0, fs, a, i, st.offset, j);
      WholeIsEncoded(log[a..st.offset], fs[i..j]);
      var js := WholeRunEndsOnBoundaries(log, 0, fs, a, i, polls);
    }
    if Boundary(fs, 0, a, i) {
      if js :| EndsOnBoundaries(fs, 0, a, polls, js) {
        var k := BoundaryReadsDeliver(log, 0, fs, a, i, polls, js);
      }
    }
  }

  /** A read that catches the writer inside a frame loses that frame for good. */
  lemma TornReadLosesFrame()
    ensures var log := Frame([7]);
            && |log| == 5
            && Grows(0, [Poll(3, 3), Poll(5, 5)], |log|)
            && Tail(log, TailState(0, []), [Poll(3, 3), Poll(5, 5)]) == TailState(5, [])
  {
    var log := Frame([7]);
    var polls := [Poll(3, 3), Poll(5, 5)];
    assert polls[1..] == [Poll(5, 5)] && polls[1..][1..] == [];
    var st := TailState(0, []);
    assert Decode(log[0..3]).0 == [] && Decode(log[3..5]).0 == [];
    var st1 := PollStep(st, log, 3, 3);
    assert st1 == TailState(3, []);
    var st2 := PollStep(st1, log, 5, 5);
    assert st2 == TailState(5, []);
    assert Tail(log, st2, []) == st2;
    assert Tail(log, st1, polls[1..]) == st2;
  }
}
