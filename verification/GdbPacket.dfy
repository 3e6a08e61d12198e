/** Packets of the GDB remote protocol: what the stub sends, and how it receives. */
module GdbPacket {
  import opened Machine

  const START: Byte := 0x24
  const END: Byte := 0x23
  const ESCAPE: Byte := 0x7d
  const ACK: Byte := 0x2b
  const NAK: Byte := 0x2d

  // ---------------------------------------------------------------- hexadecimal digits

  function HexChar(d: nat): Byte
    requires d < 16
  {
    if d < 10 then 0x30 + d else 0x61 + d - 10
  }

  function Hex(ch: Byte): int {
    if 0x61 <= ch <= 0x66 then ch - 0x61 + 10
    else if 0x30 <= ch <= 0x39 then ch - 0x30
    else if 0x41 <= ch <= 0x46 then ch - 0x41 + 10
    else -1
  }

  lemma HexOfChar(d: nat)
    requires d < 16
    ensures Hex(HexChar(d)) == d
  {
  }

  /** `ch ^ 0x20`. */
  function Unescaped(ch: Byte): Byte {
    ((ch as bv8) ^ 0x20) as Byte
  }

  // ---------------------------------------------------------------- sending

  function Sum(p: seq<Byte>): nat {
    if p == [] then 0 else Sum(p[..|p| - 1]) + p[|p| - 1]
  }

  /** What goes over the line for one payload. */
  function Packet(p: seq<Byte>): seq<Byte> {
    [START] + p + [END, HexChar(Sum(p) % 256 / 16), HexChar(Sum(p) % 256 % 16)]
  }

  // ---------------------------------------------------------------- receiving

  /** The receiver between two characters: hunting for a start, in the data, before either checksum digit, or done. */
  datatype Rx =
    | Hunt
    | Data(buf: seq<Byte>, sum: nat, escaped: bool)
    | High(buf: seq<Byte>, sum: nat)
    | Low(buf: seq<Byte>, sum: nat, high: int)
    | Done(buf: seq<Byte>)

  /** After a data character: the buffer may be full, and then only a last raw `#` counts as an end. */
  function Appended(buf: seq<Byte>, sum: nat, len: nat, raw: Byte): Rx {
    if |buf| < len then Data(buf, sum, false) else if raw == END then High(buf, sum) else Hunt
  }

  function Receive(s: Rx, ch: Byte, len: nat): Rx {
    match s
    case Hunt => if ch == START then (if len == 0 then Hunt else Data([], 0, false)) else Hunt
    case Data(buf, sum, escaped) =>
      if escaped then Appended(buf + [Unescaped(ch)], sum + ch, len, ch)
      else if ch == START then Data([], 0, false)
      else if ch == END then High(buf, sum)
      else if ch == ESCAPE then Data(buf, sum + ch, true)
      else Appended(buf + [ch], sum + ch, len, ch)
    case High(buf, sum) => Low(buf, sum, Hex(ch))
    case Low(buf, sum, high) => if sum % 256 == high * 16 + Hex(ch) then Done(buf) else Hunt
    case Done(buf) => s
  }

  /** The receiver after a stretch of the line; once done, it reads no further. */
  function Feed(s: Rx, line: seq<Byte>, len: nat): Rx {
    if line == [] then s else Receive(Feed(s, line[..|line| - 1], len), line[|line| - 1], len)
  }

  /** The answer given on a character: an acknowledgement, a refusal or nothing. */
  function Reply(s: Rx, ch: Byte, len: nat): seq<Byte> {
    if s.Low? then (if Receive(s, ch, len).Done? then [ACK] else [NAK]) else []
  }

  /** The answers given along a stretch of the line. */
  function Answers(s: Rx, line: seq<Byte>, len: nat): seq<Byte> {
    if line == [] then []
    else
      var n := |line| - 1;
      Answers(s, line[..n], len) + Reply(Feed(s, line[..n], len), line[n], len)
  }

  // ---------------------------------------------------------------- round trip

  predicate Plain(ch: Byte) {
    ch != 0x24 && ch != 0x23 && ch != 0x7d
  }

  predicate AllPlain(p: seq<Byte>) {
    forall i :: 0 <= i < |p| ==> Plain(p[i])
  }

  lemma FeedMore(s: Rx, line: seq<Byte>, ch: Byte, len: nat, all: seq<Byte>)
    requires all == line + [ch]
    ensures Feed(s, all, len) == Receive(Feed(s, line, len), ch, len)
  {
    assert all[..|line|] == line;
  }

  lemma {:induction false} FeedConcat(s: Rx, a: seq<Byte>, b: seq<Byte>, len: nat)
    ensures Feed(s, a + b, len) == Feed(Feed(s, a, len), b, len)
    decreases |b|
  {
    if b == [] {
      assert a + b == a;
    } else {
      var b', ch := b[..|b| - 1], b[|b| - 1];
      assert a + b == (a + b') + [ch] && b == b' + [ch];
      FeedConcat(s, a, b', len);
      FeedMore(s, a + b', ch, len, a + b);
      FeedMore(Feed(s, a, len), b', ch, len, b);
    }
  }

  lemma {:induction false} FeedPlain(p: seq<Byte>, len: nat)
    requires AllPlain(p) && |p| < len
    ensures Feed(Data([], 0, false), p, len) == Data(p, Sum(p), false)
  {
    if p != [] {
      var n := |p| - 1;
      FeedPlain(p[..n], len);
      assert p[..n] + [p[n]] == p;
    }
  }

  /** The three characters after the data. */
  lemma FeedTail(s: Rx, p: seq<Byte>, sum: nat, len: nat)
    requires s == Data(p, sum, false)
    ensures Feed(s, [END, HexChar(sum % 256 / 16), HexChar(sum % 256 % 16)], len) == Done(p)
  {
    var tail := [END, HexChar(sum % 256 / 16), HexChar(sum % 256 % 16)];
    HexOfChar(sum % 256 / 16);
    HexOfChar(sum % 256 % 16);
    assert tail[..2] == [tail[0], tail[1]] && tail[..2][..1] == [tail[0]] && tail[..2][..1][..0] == [];
    assert Feed(s, tail[..2][..1], len) == High(p, sum);
    assert Feed(s, tail[..2], len) == Low(p, sum, sum % 256 / 16);
  }

  // ---------------------------------------------------------------- the checksum

  /** The sum is additive, and that of one character is its code: it is the sum of the codes. */
  lemma {:induction false} SumAppend(p: seq<Byte>, q: seq<Byte>)
    ensures Sum(p + q) == Sum(p) + Sum(q)
    ensures |q| == 1 ==> Sum(q) == q[0]
    decreases |q|
  {
    if q == [] {
      assert p + q == p;
    } else {
      var n := |q| - 1;
      assert (p + q)[..|p| + n] == p + q[..n];
      SumAppend(p, q[..n]);
    }
  }

  /** A digit of either case. */
  predicate Digit(ch: Byte, d: nat) {
    if d < 10 then ch == 0x30 + d else d < 16 && (ch == 0x61 + d - 10 || ch == 0x41 + d - 10)
  }

  predicate IsDigit(ch: Byte) {
    0x30 <= ch <= 0x39 || 0x41 <= ch <= 0x46 || 0x61 <= ch <= 0x66
  }

  /** The digits sent are lower case. */
  lemma HexCharIs(d: nat)
    requires d < 16
    ensures Digit(HexChar(d), d) && !(0x41 <= HexChar(d) <= 0x46)
  {
  }

  /**
   * The checksum characters that are taken for `c`: its two digits; and, since a character that is no digit counts as
   * minus one, such a character after the digit of the next multiple of 16.
   */
  predicate Accepts(c: nat, a: Byte, b: Byte) {
    (Digit(a, c / 16) && Digit(b, c % 16)) || (c % 16 == 15 && Digit(a, c / 16 + 1) && !IsDigit(b))
  }

  lemma DigitsDecide(c: nat, a: Byte, b: Byte)
    requires c < 256
    ensures c == Hex(a) * 16 + Hex(b) <==> Accepts(c, a, b)
  {
    assert forall d: nat :: d < 16 ==> (Digit(a, d) <==> Hex(a) == d);
    assert forall d: nat :: d < 16 ==> (Digit(b, d) <==> Hex(b) == d);
    assert IsDigit(b) <==> Hex(b) != -1;
    assert c == 16 * (c / 16) + c % 16;
  }

  /** After the data the checksum decides: the payload is delivered and acknowledged, or it is refused and the receiver
      hunts for the next start. */
  lemma ChecksumDecides(p: seq<Byte>, sum: nat, a: Byte, b: Byte, len: nat)
    ensures Feed(Data(p, sum, false), [END, a, b], len) == if Accepts(sum % 256, a, b) then Done(p) else Hunt
    ensures Answers(Data(p, sum, false), [END, a, b], len) == [if Accepts(sum % 256, a, b) then 0x2b else 0x2d]
  {
    var s, tail := Data(p, sum, false), [END, a, b];
    assert tail[..2] == [END, a] && tail[..2][..1] == [END] && tail[..2][..1][..0] == [];
    FeedMore(s, [], END, len, [END]);
    FeedMore(s, [END], a, len, [END, a]);
    FeedMore(s, [END, a], b, len, tail);
    DigitsDecide(sum % 256, a, b);
    AnswersMore(s, [], END, len, [END]);
    AnswersMore(s, [END], a, len, [END, a]);
    AnswersMore(s, [END, a], b, len, tail);
    assert Feed(s, [], len) == s && Feed(s, [END], len) == High(p, sum);
    assert Feed(s, [END, a], len) == Low(p, sum, Hex(a));
  }

  /** A plain payload with any checksum characters: taken and acknowledged, or refused. */
  lemma ChecksumChecked(p: seq<Byte>, a: Byte, b: Byte, len: nat)
    requires AllPlain(p) && |p| < len
    ensures Feed(Hunt, [START] + p + [END, a, b], len) == if Accepts(Sum(p) % 256, a, b) then Done(p) else Hunt
    ensures Answers(Hunt, [START] + p + [END, a, b], len) == [if Accepts(Sum(p) % 256, a, b) then 0x2b else 0x2d]
  {
    assert [START][..0] == [] && Feed(Hunt, [START], len) == Data([], 0, false);
    FeedConcat(Hunt, [START], p, len);
    FeedPlain(p, len);
    SilentBeforeEnd(Hunt, [START] + p, len);
    FeedConcat(Hunt, [START] + p, [END, a, b], len);
    AnswersConcat(Hunt, [START] + p, [END, a, b], len);
    ChecksumDecides(p, Sum(p), a, b, len);
  }

  /** A packet is received as its payload from any state that takes its start for one. */
  lemma PacketReceived(s: Rx, p: seq<Byte>, len: nat)
    requires AllPlain(p) && |p| < len && Receive(s, START, len) == Data([], 0, false)
    ensures Feed(s, Packet(p), len) == Done(p)
  {
    var tail := [END, HexChar(Sum(p) % 256 / 16), HexChar(Sum(p) % 256 % 16)];
    assert [START][..0] == [] && Feed(s, [START], len) == Data([], 0, false);
    FeedConcat(s, [START], p, len);
    FeedPlain(p, len);
    FeedConcat(s, [START] + p, tail, len);
    FeedTail(Data(p, Sum(p), false), p, Sum(p), len);
  }

  // ---------------------------------------------------------------- junk before a packet

  lemma {:induction false} JunkIgnored(junk: seq<Byte>, len: nat)
    requires len > 0 && forall i :: 0 <= i < |junk| ==> junk[i] != END && junk[i] != ESCAPE
    ensures var s := Feed(Hunt, junk, len); s.Hunt? || (s.Data? && !s.escaped)
    ensures Receive(Feed(Hunt, junk, len), START, len) == Data([], 0, false)
  {
    if junk != [] {
      JunkIgnored(junk[..|junk| - 1], len);
    }
  }

  lemma AnswersMore(s: Rx, line: seq<Byte>, ch: Byte, len: nat, all: seq<Byte>)
    requires all == line + [ch]
    ensures Answers(s, all, len) == Answers(s, line, len) + Reply(Feed(s, line, len), ch, len)
  {
    assert all[..|line|] == line;
  }

  lemma AnswersConcat(s: Rx, a: seq<Byte>, b: seq<Byte>, len: nat)
    ensures Answers(s, a + b, len) == Answers(s, a, len) + Answers(Feed(s, a, len), b, len)
  {
    AnswersJoined(s, a, b, len, a + b, Feed(s, a, len));
  }

  lemma {:induction false} AnswersJoined(s: Rx, a: seq<Byte>, b: seq<Byte>, len: nat, all: seq<Byte>, t: Rx)
    requires all == a + b && t == Feed(s, a, len)
    ensures Answers(s, all, len) == Answers(s, a, len) + Answers(t, b, len)
    decreases |b|
  {
    if b == [] {
      assert all == a;
    } else {
      var b', ch, ab := b[..|b| - 1], b[|b| - 1], all[..|all| - 1];
      assert ab == a + b' && all == ab + [ch] && b == b' + [ch];
      assert Feed(s, ab, len) == Feed(t, b', len) by {
        FeedConcat(s, a, b', len);
      }
      AnswersJoined(s, a, b', len, ab, t);
      AnswersOne(s, a, b', ch, len, ab, all, b, t);
    }
  }

  lemma AnswersOne(s: Rx, a: seq<Byte>, b: seq<Byte>, ch: Byte, len: nat,
                   ab: seq<Byte>, all: seq<Byte>, more: seq<Byte>, t: Rx)
    requires Answers(s, ab, len) == Answers(s, a, len) + Answers(t, b, len)
    requires Feed(s, ab, len) == Feed(t, b, len) && all == ab + [ch] && more == b + [ch]
    ensures Answers(s, all, len) == Answers(s, a, len) + Answers(t, more, len)
  {
    AnswersMore(s, ab, ch, len, all);
    AnswersMore(t, b, ch, len, more);
    Regroup(Answers(s, a, len), Answers(t, b, len), Reply(Feed(s, ab, len), ch, len));
  }

  lemma Regroup(x: seq<Byte>, y: seq<Byte>, z: seq<Byte>)
    ensures (x + y) + z == x + (y + z)
  {
  }

  /** Nothing is answered before an end mark. */
  lemma {:induction false} SilentBeforeEnd(s: Rx, line: seq<Byte>, len: nat)
    requires (s.Hunt? || s.Data?) && forall i :: 0 <= i < |line| ==> line[i] != END
    ensures Answers(s, line, len) == []
    ensures Feed(s, line, len).Hunt? || Feed(s, line, len).Data?
  {
    if line != [] {
      SilentBeforeEnd(s, line[..|line| - 1], len);
    }
  }

  /** A matching checksum is acknowledged. */
  lemma TailAnswered(s: Rx, p: seq<Byte>, sum: nat, len: nat)
    requires s == Data(p, sum, false)
    ensures Answers(s, [END, HexChar(sum % 256 / 16), HexChar(sum % 256 % 16)], len) == [ACK]
  {
    var tail := [END, HexChar(sum % 256 / 16), HexChar(sum % 256 % 16)];
    HexOfChar(sum % 256 / 16);
    HexOfChar(sum % 256 % 16);
    assert tail[..2] == [tail[0], tail[1]] && tail[..2][..1] == [tail[0]] && tail[..2][..1][..0] == [];
    assert Feed(s, tail[..2][..1], len) == High(p, sum);
    assert Feed(s, tail[..2], len) == Low(p, sum, sum % 256 / 16);
    assert Answers(s, tail[..2][..1][..0], len) == [];
    AnswersMore(s, tail[..2][..1][..0], tail[0], len, tail[..2][..1]);
    AnswersMore(s, tail[..2][..1], tail[1], len, tail[..2]);
    AnswersMore(s, tail[..2], tail[2], len, tail);
  }

  /** An unfinished packet on the line, without an end or an escape, does not disturb the one that follows, which is
      acknowledged, and nothing else is answered. */
  lemma ResyncAfterJunk(junk: seq<Byte>, p: seq<Byte>, len: nat)
    requires AllPlain(p) && |p| < len && forall i :: 0 <= i < |junk| ==> junk[i] != END && junk[i] != ESCAPE
    ensures Feed(Hunt, junk + Packet(p), len) == Done(p)
    ensures Answers(Hunt, junk + Packet(p), len) == [ACK]
  {
    JunkIgnored(junk, len);
    FeedConcat(Hunt, junk, Packet(p), len);
    PacketReceived(Feed(Hunt, junk, len), p, len);
    SilentBeforeEnd(Hunt, junk, len);
    AnswersConcat(Hunt, junk, Packet(p), len);
    PacketAnswered(Feed(Hunt, junk, len), p, len);
  }

  lemma PacketAnswered(s: Rx, p: seq<Byte>, len: nat)
    requires AllPlain(p) && |p| < len && (s.Hunt? || s.Data?) && Receive(s, START, len) == Data([], 0, false)
    ensures Answers(s, Packet(p), len) == [ACK]
  {
    var tail := [END, HexChar(Sum(p) % 256 / 16), HexChar(Sum(p) % 256 % 16)];
    assert [START][..0] == [] && Feed(s, [START], len) == Data([], 0, false);
    FeedConcat(s, [START], p, len);
    FeedPlain(p, len);
    SilentBeforeEnd(s, [START] + p, len);
    AnswersConcat(s, [START] + p, tail, len);
    TailAnswered(Data(p, Sum(p), false), p, Sum(p), len);
  }

  /** A finished receiver answers nothing more. */
  lemma {:induction false} DoneSilent(buf: seq<Byte>, line: seq<Byte>, len: nat)
    ensures Answers(Done(buf), line, len) == []
  {
    if line != [] {
      DoneSilent(buf, line[..|line| - 1], len);
      DoneStays(buf, line[..|line| - 1], len);
    }
  }

  /** Where the receiver is done, the rest of the line changes neither payload nor answers. */
  lemma DoneIsFinal(line: seq<Byte>, k: nat, len: nat)
    requires k <= |line| && Feed(Hunt, line[..k], len).Done?
    ensures Feed(Hunt, line, len) == Feed(Hunt, line[..k], len)
    ensures Answers(Hunt, line, len) == Answers(Hunt, line[..k], len)
  {
    var buf := Feed(Hunt, line[..k], len).buf;
    assert line[..k] + line[k..] == line;
    FeedConcat(Hunt, line[..k], line[k..], len);
    AnswersConcat(Hunt, line[..k], line[k..], len);
    DoneStays(buf, line[k..], len);
    DoneSilent(buf, line[k..], len);
  }

  // ---------------------------------------------------------------- exactly which payloads come through

  /** Line characters a state has to have cost at least. */
  function Cost(s: Rx): nat {
    match s
    case Hunt => 0
    case Data(buf, _, escaped) => |buf| + if escaped then 2 else 1
    case High(buf, _) => |buf| + 2
    case Low(buf, _, _) => |buf| + 3
    case Done(buf) => |buf| + 4
  }

  lemma {:induction false} FeedCost(s: Rx, line: seq<Byte>, len: nat)
    ensures Cost(Feed(s, line, len)) <= Cost(s) + |line|
  {
    if line != [] {
      FeedCost(s, line[..|line| - 1], len);
    }
  }

  lemma FeedFrom(line: seq<Byte>, k: nat, len: nat)
    requires k <= |line|
    ensures Feed(Hunt, line, len) == Feed(Feed(Hunt, line[..k], len), line[k..], len)
  {
    assert line[..k] + line[k..] == line;
    FeedConcat(Hunt, line[..k], line[k..], len);
  }

  /** Falling behind once is final: the remaining characters cannot make it up. */
  lemma BehindForGood(line: seq<Byte>, k: nat, len: nat)
    requires k <= |line| && Cost(Feed(Hunt, line[..k], len)) < k
    ensures Cost(Feed(Hunt, line, len)) < |line|
  {
    FeedFrom(line, k, len);
    FeedCost(Feed(Hunt, line[..k], len), line[k..], len);
  }

  /** A packet's payload is what is received exactly when it has no reserved character and is
      shorter than the buffer. */
  lemma RoundTripExact(p: seq<Byte>, len: nat)
    requires len > 0
    ensures Feed(Hunt, Packet(p), len) == Done(p) <==> AllPlain(p) && |p| < len
  {
    if AllPlain(p) && |p| < len {
      PacketReceived(Hunt, p, len);
    } else {
      var i := FirstTrouble(p, len);
      LosesGround(p, i, len);
    }
  }

  /** The first reserved character, or the first one the buffer has no room after. */
  lemma FirstTrouble(p: seq<Byte>, len: nat) returns (i: nat)
    requires len > 0 && !(AllPlain(p) && |p| < len)
    ensures i < |p| && i < len && AllPlain(p[..i]) && (!Plain(p[i]) || i + 1 == len)
  {
    i := 0;
    while Plain(p[i]) && i + 1 < len
      invariant i < |p| && i < len && AllPlain(p[..i])
      decreases |p| - i
    {
      i := i + 1;
      assert p[..i] == p[..i - 1] + [p[i - 1]];
    }
  }

  lemma UpTo(p: seq<Byte>, i: nat, len: nat)
    requires i <= |p| && i < len && AllPlain(p[..i])
    ensures Feed(Hunt, Packet(p)[..i + 1], len) == Data(p[..i], Sum(p[..i]), false)
  {
    assert Packet(p)[..i + 1] == [START] + p[..i];
    FeedConcat(Hunt, [START], p[..i], len);
    assert [START][..0] == [] && Feed(Hunt, [START], len) == Data([], 0, false);
    FeedPlain(p[..i], len);
  }

  lemma LosesGround(p: seq<Byte>, i: nat, len: nat)
    requires i < |p| && i < len && AllPlain(p[..i]) && (!Plain(p[i]) || i + 1 == len)
    ensures Feed(Hunt, Packet(p), len) != Done(p)
  {
    var line := Packet(p);
    UpTo(p, i, len);
    FourMore(line, i + 1, len);
    var s := Receive4(Data(p[..i], Sum(p[..i]), false), p[i], line[i + 2], line[i + 3], line[i + 4], len);
    Trouble(p[..i], Sum(p[..i]), p[i], line[i + 2], line[i + 3], line[i + 4], len);
    if Cost(s) < i + 5 {
      BehindForGood(line, i + 5, len);
    } else {
      FeedFrom(line, i + 5, len);
      DoneStays(s.buf, line[i + 5..], len);
    }
  }

  function Receive4(s: Rx, a: Byte, b: Byte, c: Byte, d: Byte, len: nat): Rx {
    Receive(Receive(Receive(Receive(s, a, len), b, len), c, len), d, len)
  }

  /**
   * Four characters from a reserved one, or from one that fills the buffer, on: the receiver has fallen behind, or
   * it has taken an escaped `#` that filled the buffer for the end, and the payload is not the one sent.
   */
  lemma Trouble(buf: seq<Byte>, sum: nat, a: Byte, b: Byte, c: Byte, d: Byte, len: nat)
    requires |buf| < len && (!Plain(a) || |buf| + 1 == len)
    ensures var s := Receive4(Data(buf, sum, false), a, b, c, d, len);
      Cost(s) < |buf| + 5 || (s.Done? && |s.buf| == |buf| + 1 && s.buf[|buf|] != a)
  {
    var s1 := Receive(Data(buf, sum, false), a, len);
    var s2 := Receive(s1, b, len);
    if a == ESCAPE {
      if b == END && |buf| + 1 == len {
        assert s2 == High(buf + [Unescaped(END)], sum + a + b);
      } else {
        assert Cost(s2) < |buf| + 3;
        TwoCost(s2, c, d, len);
      }
    } else if a == END {
      assert s1 == High(buf, sum);
    } else {
      assert Cost(s1) < |buf| + 2;
      TwoCost(s2, c, d, len);
    }
  }

  lemma TwoCost(s: Rx, c: Byte, d: Byte, len: nat)
    ensures Cost(Receive(Receive(s, c, len), d, len)) <= Cost(s) + 2
  {
    assert Cost(Receive(s, c, len)) <= Cost(s) + 1;
  }

  lemma {:induction false} DoneStays(buf: seq<Byte>, line: seq<Byte>, len: nat)
    ensures Feed(Done(buf), line, len) == Done(buf)
  {
    if line != [] {
      DoneStays(buf, line[..|line| - 1], len);
    }
  }

  lemma FourMore(line: seq<Byte>, k: nat, len: nat)
    requires k + 4 <= |line|
    ensures Feed(Hunt, line[..k + 4], len) ==
      Receive4(Feed(Hunt, line[..k], len), line[k], line[k + 1], line[k + 2], line[k + 3], len)
  {
    OneMore(line, k, len);
    OneMore(line, k + 1, len);
    OneMore(line, k + 2, len);
    OneMore(line, k + 3, len);
  }

  lemma OneMore(line: seq<Byte>, k: nat, len: nat)
    requires k < |line|
    ensures Feed(Hunt, line[..k + 1], len) == Receive(Feed(Hunt, line[..k], len), line[k], len)
  {
    assert line[..k + 1][..k] == line[..k];
  }

  /** An escaped character is received exclusive-or 0x20. */
  lemma EscapeDecodes(buf: seq<Byte>, sum: nat, ch: Byte, len: nat)
    requires |buf| + 1 < len
    ensures Feed(Data(buf, sum, false), [0x7d, ch], len) ==
      Data(buf + [((ch as bv8) ^ 0x20) as Byte], sum + 0x7d + ch, false)
  {
    var s := Data(buf, sum, false);
    assert [ESCAPE, ch][..1] == [ESCAPE] && [ESCAPE][..0] == [] && Feed(s, [], len) == s;
    assert Feed(s, [ESCAPE], len) == Data(buf, sum + ESCAPE, true);
  }

  // ---------------------------------------------------------------- the stub's two routines

  /** `n` transmissions of one packet. */
  function Repeated(p: seq<Byte>, n: nat): seq<Byte> {
    if n == 0 then [] else Repeated(p, n - 1) + Packet(p)
  }

  /** One transmission of a NUL-terminated buffer. */
  method Transmit(buf: array<Byte>, ghost n: nat) returns (sent: seq<Byte>)
    requires n < buf.Length && buf[n] == 0 && forall i :: 0 <= i < n ==> buf[i] != 0
    ensures sent == Packet(buf[..n])
    ensures |sent| == n + 4 && sent[0] == 0x24 && sent[1..n + 1] == buf[..n] && sent[n + 1] == 0x23
    ensures Digit(sent[n + 2], Sum(buf[..n]) % 256 / 16) && Digit(sent[n + 3], Sum(buf[..n]) % 256 % 16)
  {
    var checksum: nat, i: nat := 0, 0;
    while buf[i] != 0
      invariant i <= n && checksum == Sum(buf[..i])
      decreases n - i
    {
      checksum := checksum + buf[i];
      assert buf[..i + 1][..i] == buf[..i];
      i := i + 1;
    }
    sent := [START] + buf[..i] + [END, HexChar(checksum % 256 / 16), HexChar(checksum % 256 % 16)];
    HexCharIs(checksum % 256 / 16);
    HexCharIs(checksum % 256 % 16);
  }

  /**
   * Transmits until an acknowledgement comes back: `answers` are the characters that come back, one for each
   * transmission. When they run out, the stub waits for another.
   */
  method PutPacket(buf: array<Byte>, answers: seq<Byte>, ghost n: nat)
    returns (sent: seq<Byte>, acked: bool, tries: nat)
    requires n < buf.Length && buf[n] == 0 && forall i :: 0 <= i < n ==> buf[i] != 0
    ensures acked <==> 0x2b in answers
    ensures sent == Repeated(buf[..n], tries)
    ensures 0 < tries <= |answers| + 1 && forall i :: 0 <= i < tries - 1 ==> answers[i] != 0x2b
    ensures if acked then tries <= |answers| && answers[tries - 1] == 0x2b else tries == |answers| + 1
  {
    sent := Transmit(buf, n);
    acked, tries := false, 1;
    assert Repeated(buf[..n], 0) == [];
    while tries <= |answers| && answers[tries - 1] != ACK
      invariant 0 < tries <= |answers| + 1 && sent == Repeated(buf[..n], tries)
      invariant forall i :: 0 <= i < tries - 1 ==> answers[i] != ACK
    {
      var again := Transmit(buf, n);
      sent, tries := sent + again, tries + 1;
    }
    acked := tries <= |answers|;
  }

  class Receiver {
    /** The line, and how much of it has been read. */
    const line: seq<Byte>
    var pos: nat
    var replies: seq<Byte>

    constructor (input: seq<Byte>)
      ensures line == input && pos == 0 && replies == []
    {
      line, pos, replies := input, 0, [];
    }

    /** The receiver is in state `s` on what was read, and `r` is what that calls for as answers. */
    ghost predicate Read(s: Rx, r: seq<Byte>, len: nat)
      reads this
    {
      pos <= |line| && s == Feed(Hunt, line[..pos], len) && r == Answers(Hunt, line[..pos], len)
    }

    ghost predicate At(s: Rx, len: nat)
      reads this
    {
      Read(s, replies, len)
    }

    /** Takes one character, if there is one. */
    method GetChar(ghost s: Rx, len: nat) returns (more: bool, ch: Byte)
      requires At(s, len)
      modifies this`pos
      ensures more == (old(pos) < |line|) && (!more ==> pos == old(pos) && At(s, len))
      ensures more ==> pos == old(pos) + 1 && Read(Receive(s, ch, len), replies + Reply(s, ch, len), len)
    {
      more, ch := pos < |line|, 0;
      if more {
        ch := line[pos];
        assert line[..pos + 1][..pos] == line[..pos];
        pos := pos + 1;
      }
    }

    /** Skips to the start of a packet. */
    method HuntStart(len: nat) returns (more: bool)
      requires At(Hunt, len) && len > 0
      modifies this`pos
      ensures pos >= old(pos)
      ensures if more then At(Data([], 0, false), len) && pos > old(pos) else At(Hunt, len) && pos == |line|
    {
      var ch: Byte := 0;
      more := true;
      while more && ch != START
        invariant pos >= old(pos) && (more && ch == START ==> pos > old(pos) && At(Data([], 0, false), len))
        invariant (more && ch != START ==> At(Hunt, len)) && (!more ==> At(Hunt, len) && pos == |line|)
        decreases more, |line| - pos
      {
        more, ch := GetChar(Hunt, len);
      }
    }

    /** Reads the data into the buffer, up to the end mark or until the buffer is full. `ch` is
        the last character read. */
    method ReadData(buf: array<Byte>, len: nat) returns (more: bool, count: nat, checksum: nat, ch: Byte, ghost s: Rx)
      requires At(Data([], 0, false), len) && 0 < len < buf.Length
      modifies this`pos, buf
      ensures pos >= old(pos) && count <= len && At(s, len)
      ensures more ==> s == Ended(buf[..count], checksum, ch)
      ensures !more ==> pos == |line| && !s.Done?
    {
      var escaped := false;
      more, count, checksum, ch := true, 0, 0, START;
      s := Data([], 0, false);
      while count < len
        invariant pos >= old(pos) && count <= len && At(s, len) && more
        invariant s == if count < len then Data(buf[..count], checksum, escaped) else Ended(buf[..count], checksum, ch)
        decreases |line| - pos
      {
        more, ch := GetChar(s, len);
        if !more {
          break;
        }
        ghost var before := s;
        s := Receive(s, ch, len);
        if !escaped && ch == END {
          break;
        }
        count, checksum, escaped := TakeData(buf, count, checksum, escaped, ch, len, before);
      }
    }

    /** Reads the two checksum digits and answers. */
    method ReadChecksum(ghost b: seq<Byte>, checksum: nat, len: nat) returns (more: bool, ok: bool, ghost s: Rx)
      requires At(High(b, checksum), len)
      modifies this`pos, this`replies
      ensures pos >= old(pos) && At(s, len)
      ensures more ==> s == if ok then Done(b) else Hunt
      ensures more ==> replies == old(replies) + [if ok then ACK else NAK]
      ensures !more ==> !ok && pos == |line| && !s.Done?
    {
      var ch;
      s, ok := High(b, checksum), false;
      more, ch := GetChar(s, len);
      if !more {
        return;
      }
      var high := Hex(ch);
      s := Low(b, checksum, high);
      more, ch := GetChar(s, len);
      if !more {
        return;
      }
      s := Receive(s, ch, len);
      ok := checksum % 256 == high * 16 + Hex(ch);
      replies := replies + [if ok then ACK else NAK];
    }

    /** Reads until a packet has been taken; nothing is delivered when the line ends first. */
    method GetPacket(buf: array<Byte>, len: nat) returns (received: bool, count: nat, ghost s: Rx)
      requires At(Hunt, len) && 0 < len < buf.Length
      modifies this`pos, this`replies, buf
      ensures received ==> At(s, len) && count <= len && buf[count] == 0 && s.Done? && s.buf == buf[..count]
      ensures !received ==> pos == |line| && !Feed(Hunt, line, len).Done?
    {
      received, count, s := false, 0, Hunt;
      while true
        invariant At(Hunt, len)
        decreases |line| - pos
      {
        var more := HuntStart(len);
        if !more {
          assert line[..pos] == line;
          return;
        }
        var checksum, ch;
        more, count, checksum, ch, s := ReadData(buf, len);
        if !more {
          assert line[..pos] == line;
          return;
        }
        ghost var b := buf[..count];
        buf[count] := 0;
        assert buf[..count] == b;
        if ch == END {
          more, received, s := ReadChecksum(b, checksum, len);
          if !more {
            assert line[..pos] == line;
            return;
          }
          if received {
            assert buf[..count] == b;
            return;
          }
        }
      }
    }
  }

  /** How the data loop is left: the last character tells whether an end mark follows. */
  function Ended(buf: seq<Byte>, checksum: nat, ch: Byte): Rx {
    if ch == END then High(buf, checksum) else Hunt
  }

  /** One data character. */
  method TakeData(buf: array<Byte>, count: nat, checksum: nat, escaped: bool, ch: Byte, len: nat, ghost s: Rx)
    returns (count': nat, checksum': nat, escaped': bool)
    requires count < len < buf.Length && s == Data(buf[..count], checksum, escaped) && (escaped || ch != END)
    modifies buf
    ensures count' <= len
    ensures Receive(s, ch, len) ==
      if count' < len then Data(buf[..count'], checksum', escaped') else Ended(buf[..count'], checksum', ch)
  {
    count', checksum', escaped' := count, checksum + ch, false;
    if escaped {
      buf[count] := Unescaped(ch);
      count' := count + 1;
      assert buf[..count'] == old(buf[..count]) + [Unescaped(ch)];
    } else if ch == START {
      count', checksum' := 0, 0;
    } else if ch == ESCAPE {
      escaped' := true;
    } else {
      buf[count] := ch;
      count' := count + 1;
      assert buf[..count'] == old(buf[..count]) + [ch];
    }
  }

  /**
   * A plain payload shorter than the receiver's buffer, sent after the junk of an unfinished packet: it is delivered
   * unchanged, it alone is acknowledged, and with that answer the sender has transmitted once.
   */
  method Exchange(src: array<Byte>, dst: array<Byte>, len: nat, junk: seq<Byte>, ghost n: nat)
    returns (received: bool, count: nat, tries: nat)
    requires n < src.Length && src[n] == 0 && forall i :: 0 <= i < n ==> src[i] != 0
    requires AllPlain(src[..n]) && n < len < dst.Length && src != dst
    requires forall i :: 0 <= i < |junk| ==> junk[i] != END && junk[i] != ESCAPE
    modifies dst
    ensures received && count == n && dst[..count] == src[..n] && dst[count] == 0 && tries == 1
  {
    var p := Transmit(src, n);
    var receiver := new Receiver(junk + p);
    assert receiver.line[..0] == [];
    ghost var s;
    received, count, s := receiver.GetPacket(dst, len);
    ResyncAfterJunk(junk, src[..n], len);
    DoneIsFinal(receiver.line, receiver.pos, len);
    assert receiver.replies == [ACK];
    var sent, acked;
    sent, acked, tries := PutPacket(src, receiver.replies, n);
  }
}
