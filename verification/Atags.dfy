/** The tag list handed to a Linux guest: tags written one after another into memory,
    and walked by their size fields. */
module Atags {
  import opened Machine

  const ATAG_NONE: Word := 0
  const ATAG_CORE: Word := 0x5441_0001
  const ATAG_MEM: Word := 0x5441_0002
  const ATAG_RAMDISK: Word := 0x5441_0004
  const ATAG_INITRD2: Word := 0x5442_0005
  const ATAG_REVISION: Word := 0x5441_0007
  const ATAG_CMDLINE: Word := 0x5441_0009
  const REVISION: Word := 0xcfdf_dfdf

  datatype Tag =
    | Core(flags: Word, pagesize: Word, rootdev: Word)
    | Revision(rev: Word)
    | Mem(start: Word, len: Word)
    | Initrd2(start: Word, size: Word)
    | Ramdisk(flags: Word, size: Word, first: Word)
    | Cmdline(text: seq<Byte>)
    | Unknown(kind: Word, words: Word)

  /** A tag the loader writes: a string argument has no NUL, and an empty one makes no tag. */
  predicate TagOk(t: Tag) {
    && !t.Unknown?
    && (t.Cmdline? ==> t.text != [] && |t.text| < 0x1000_0000 && forall i :: 0 <= i < |t.text| ==> t.text[i] != 0)
  }

  // ---------------------------------------------------------------- little-endian words

  function Le(w: Word): (s: seq<Byte>)
    ensures |s| == 4
  {
    [w % 256, w / 256 % 256, w / 0x1_0000 % 256, w / 0x100_0000]
  }

  function Read(m: seq<Byte>, a: nat): Word
    requires a + 4 <= |m|
  {
    var b0: int, b1: int, b2: int, b3: int := m[a], m[a + 1], m[a + 2], m[a + 3];
    b0 + 256 * b1 + 0x1_0000 * b2 + 0x100_0000 * b3
  }

  lemma ReadLe(m: seq<Byte>, a: nat, w: Word)
    requires a + 4 <= |m| && m[a..a + 4] == Le(w)
    ensures Read(m, a) == w
  {
    assert m[a] == m[a..a + 4][0] && m[a + 1] == m[a..a + 4][1]
           && m[a + 2] == m[a..a + 4][2] && m[a + 3] == m[a..a + 4][3];
    assert w / 0x1_0000 == w / 256 / 256 && w / 0x100_0000 == w / 0x1_0000 / 256;
  }

  // ---------------------------------------------------------------- one tag

  /** The tag's length in words, header included. */
  function Size(t: Tag): nat {
    match t
    case Core(_, _, _) => 5
    case Revision(_) => 3
    case Mem(_, _) => 4
    case Initrd2(_, _) => 4
    case Ramdisk(_, _, _) => 5
    case Cmdline(text) => (8 + |text| + 1 + 4) / 4
    case Unknown(_, words) => words
  }

  /** The words of a tag without a string. */
  function Words(t: Tag): (ws: seq<Word>)
    requires TagOk(t) && !t.Cmdline?
    ensures |ws| == Size(t)
  {
    match t
    case Core(flags, pagesize, rootdev) => [5, ATAG_CORE, flags, pagesize, rootdev]
    case Revision(rev) => [3, ATAG_REVISION, rev]
    case Mem(start, len) => [4, ATAG_MEM, len, start]
    case Initrd2(start, size) => [4, ATAG_INITRD2, start, size]
    case Ramdisk(flags, size, first) => [5, ATAG_RAMDISK, flags, size, first]
  }

  /** The words lie one after another from `a` on. */
  predicate WordsAt(m: seq<Byte>, a: nat, ws: seq<Word>) {
    a + 4 * |ws| <= |m| && forall i: nat :: i < |ws| ==> Read(m, a + 4 * i) == ws[i]
  }

  /** The tag lies in memory at `a`, a string with its NUL. */
  predicate TagAt(m: seq<Byte>, a: nat, t: Tag)
    requires TagOk(t)
  {
    if t.Cmdline? then
      && a + 8 + |t.text| + 1 <= |m| && WordsAt(m, a, [Size(t), ATAG_CMDLINE])
      && m[a + 8..a + 8 + |t.text|] == t.text && m[a + 8 + |t.text|] == 0
    else WordsAt(m, a, Words(t))
  }

  /** For every length, a command line and its NUL lie inside their own tag, with at most a word to spare. */
  lemma CmdlineFits(text: seq<Byte>)
    ensures 8 + |text| + 1 <= 4 * Size(Cmdline(text)) <= 8 + |text| + 1 + 4
  {
  }

  // ---------------------------------------------------------------- walking the list

  /** The string at `a`, up to a NUL or to `end`. */
  function Text(m: seq<Byte>, a: nat, end: nat): seq<Byte>
    requires a <= end <= |m|
    decreases end - a
  {
    if a == end || m[a] == 0 then [] else [m[a]] + Text(m, a + 1, end)
  }

  /** The tag at `a`, as its header describes it. */
  function Parse(m: seq<Byte>, a: nat): Tag
    requires a + 8 <= |m| && 2 <= Read(m, a) && a + 4 * Read(m, a) <= |m|
  {
    var size, kind := Read(m, a), Read(m, a + 4);
    if kind == ATAG_CORE && size == 5 then Core(Read(m, a + 8), Read(m, a + 12), Read(m, a + 16))
    else if kind == ATAG_REVISION && size == 3 then Revision(Read(m, a + 8))
    else if kind == ATAG_MEM && size == 4 then Mem(Read(m, a + 12), Read(m, a + 8))
    else if kind == ATAG_INITRD2 && size == 4 then Initrd2(Read(m, a + 8), Read(m, a + 12))
    else if kind == ATAG_RAMDISK && size == 5 then Ramdisk(Read(m, a + 8), Read(m, a + 12), Read(m, a + 16))
    else if kind == ATAG_CMDLINE then Cmdline(Text(m, a + 8, a + 4 * size))
    else Unknown(kind, size)
  }

  /** Following the size fields from `a` to the end tag. */
  function Walk(m: seq<Byte>, a: nat): seq<Tag>
    decreases |m| - a
  {
    if a + 8 > |m| || Read(m, a + 4) == ATAG_NONE || Read(m, a) < 2 || a + 4 * Read(m, a) > |m| then []
    else [Parse(m, a)] + Walk(m, a + 4 * Read(m, a))
  }

  lemma {:induction false} TextAt(m: seq<Byte>, a: nat, end: nat, text: seq<Byte>)
    requires a + |text| < end <= |m| && m[a..a + |text|] == text && m[a + |text|] == 0
    requires forall i :: 0 <= i < |text| ==> text[i] != 0
    ensures Text(m, a, end) == text
    decreases |text|
  {
    if text != [] {
      assert m[a] == m[a..a + |text|][0];
      assert m[a + 1..a + 1 + |text[1..]|] == m[a..a + |text|][1..];
      TextAt(m, a + 1, end, text[1..]);
    }
  }

  lemma TagParsed(m: seq<Byte>, a: nat, t: Tag)
    requires TagOk(t) && TagAt(m, a, t) && a + 4 * Size(t) <= |m|
    ensures a + 8 <= |m| && Read(m, a) == Size(t) && Read(m, a + 4) != ATAG_NONE && Parse(m, a) == t
  {
    if t.Cmdline? {
      LineParsed(m, a, t);
    } else {
      var ws := Words(t);
      assert Read(m, a + 4 * 0) == ws[0] && Read(m, a + 4 * 1) == ws[1] && Read(m, a + 4 * 2) == ws[2];
      assert |ws| > 3 ==> Read(m, a + 4 * 3) == ws[3];
      assert |ws| > 4 ==> Read(m, a + 4 * 4) == ws[4];
    }
  }

  lemma LineParsed(m: seq<Byte>, a: nat, t: Tag)
    requires TagOk(t) && TagAt(m, a, t) && a + 4 * Size(t) <= |m| && t.Cmdline?
    ensures a + 8 <= |m| && Read(m, a) == Size(t) && Read(m, a + 4) == ATAG_CMDLINE && Parse(m, a) == t
  {
    var ws: seq<Word> := [Size(t), ATAG_CMDLINE];
    assert WordsAt(m, a, ws);
    assert Read(m, a + 4 * 0) == ws[0] && Read(m, a + 4 * 1) == ws[1];
    CmdlineFits(t.text);
    TextAt(m, a + 8, a + 4 * Size(t), t.text);
  }

  /** The other way round: what parses as a tag without a string is that tag, word by word. */
  lemma ParsedIsWritten(m: seq<Byte>, a: nat)
    requires a + 8 <= |m| && 2 <= Read(m, a) && a + 4 * Read(m, a) <= |m|
    requires var t := Parse(m, a); !t.Unknown? && !t.Cmdline?
    ensures TagOk(Parse(m, a)) && Size(Parse(m, a)) == Read(m, a) && TagAt(m, a, Parse(m, a))
  {
    var ws := Words(Parse(m, a));
    forall i: nat | i < |ws|
      ensures Read(m, a + 4 * i) == ws[i]
    {
      assert i == 0 || i == 1 || i == 2 || i == 3 || i == 4;
    }
  }

  /** The tags lie back to back from `a` to `end`. */
  predicate Listed(m: seq<Byte>, a: nat, end: nat, tags: seq<Tag>)
    decreases |tags|
  {
    if tags == [] then a == end
    else Last(m, end, tags[|tags| - 1]) && Listed(m, a, end - 4 * Size(tags[|tags| - 1]), tags[..|tags| - 1])
  }

  /** The tag lies right before `end`. */
  predicate Last(m: seq<Byte>, end: nat, t: Tag) {
    TagOk(t) && 4 * Size(t) <= end <= |m| && TagAt(m, end - 4 * Size(t), t)
  }

  /** The walk reaches exactly the tags emitted, in order, each with its arguments, and then what lies after them. */
  lemma {:induction false} WalkIsList(m: seq<Byte>, a: nat, end: nat, tags: seq<Tag>)
    requires Listed(m, a, end, tags)
    ensures Walk(m, a) == tags + Walk(m, end)
    decreases |tags|
  {
    if tags != [] {
      var t, most := tags[|tags| - 1], tags[..|tags| - 1];
      var at := end - 4 * Size(t);
      WalkIsList(m, a, at, most);
      WalkOne(m, at, end, t);
      Regroup(tags, most, t, Walk(m, end));
    }
  }

  lemma WalkOne(m: seq<Byte>, at: nat, end: nat, t: Tag)
    requires Last(m, end, t) && at == end - 4 * Size(t)
    ensures Walk(m, at) == [t] + Walk(m, end)
  {
    TagParsed(m, at, t);
  }

  lemma Regroup(tags: seq<Tag>, most: seq<Tag>, t: Tag, rest: seq<Tag>)
    requires tags == most + [t]
    ensures most + ([t] + rest) == tags + rest
  {
  }

  // ---------------------------------------------------------------- building the list

  /** Memory that agrees below `end` holds the same tags. */
  lemma {:induction false} ListedBelow(m: seq<Byte>, m': seq<Byte>, a: nat, end: nat, tags: seq<Tag>)
    requires Listed(m, a, end, tags) && |m| == |m'| && end <= |m| && m[..end] == m'[..end]
    ensures Listed(m', a, end, tags)
    decreases |tags|
  {
    if tags != [] {
      var at := end - 4 * Size(tags[|tags| - 1]);
      TagBelow(m, m', at, end, tags[|tags| - 1]);
      assert m[..at] == m[..end][..at] && m'[..at] == m'[..end][..at];
      ListedBelow(m, m', a, at, tags[..|tags| - 1]);
    }
  }

  lemma TagBelow(m: seq<Byte>, m': seq<Byte>, a: nat, end: nat, t: Tag)
    requires TagOk(t) && TagAt(m, a, t) && a + 4 * Size(t) <= end <= |m| == |m'| && m[..end] == m'[..end]
    ensures TagAt(m', a, t)
  {
    forall i | 0 <= i < end
      ensures m'[i] == m[i]
    {
      assert m'[i] == m'[..end][i] && m[i] == m[..end][i];
    }
    if t.Cmdline? {
      CmdlineFits(t.text);
      assert m'[a + 8..a + 8 + |t.text|] == m[a + 8..a + 8 + |t.text|];
    }
  }

  /** One tag more, written after the others. */
  lemma ListedMore(m: seq<Byte>, m': seq<Byte>, a: nat, end: nat, tags: seq<Tag>, t: Tag)
    requires Listed(m, a, end, tags) && |m| == |m'| && end <= |m| && m[..end] == m'[..end]
    requires Last(m', end + 4 * Size(t), t)
    ensures Listed(m', a, end + 4 * Size(t), tags + [t])
  {
    ListedBelow(m, m', a, end, tags);
    assert (tags + [t])[..|tags|] == tags;
  }

  /** The last of the listed tags lies right before the end, and the others end where it begins. */
  lemma ListedPeel(m: seq<Byte>, a: nat, end: nat, most: seq<Tag>, t: Tag) returns (at: nat)
    requires Listed(m, a, end, most + [t])
    ensures TagOk(t) && at + 4 * Size(t) == end && TagAt(m, at, t) && Listed(m, a, at, most)
  {
    assert (most + [t])[..|most|] == most;
    at := end - 4 * Size(t);
  }

  class Builder {
    const mem: array<Byte>
    const base: nat
    /** Where the next tag goes. */
    var params: nat
    ghost var tags: seq<Tag>

    ghost predicate Valid()
      reads this, mem
    {
      params <= mem.Length && Listed(mem[..], base, params, tags)
    }

    constructor (memory: array<Byte>, address: nat)
      requires address <= memory.Length
      ensures mem == memory && base == params == address && tags == [] && Valid()
    {
      mem, base, params, tags := memory, address, address, [];
    }

    method PutWord(a: nat, w: Word)
      requires a + 4 <= mem.Length
      modifies mem
      ensures forall i :: 0 <= i < mem.Length && !(a <= i < a + 4) ==> mem[i] == old(mem[i])
      ensures Read(mem[..], a) == w
    {
      mem[a], mem[a + 1], mem[a + 2], mem[a + 3] := w % 256, w / 256 % 256, w / 0x1_0000 % 256, w / 0x100_0000;
      ReadLe(mem[..], a, w);
    }

    /** Writes words one after another. */
    method PutWords(at: nat, ws: seq<Word>)
      requires at + 4 * |ws| <= mem.Length
      modifies mem
      ensures forall i :: 0 <= i < at ==> mem[i] == old(mem[i])
      ensures WordsAt(mem[..], at, ws)
    {
      var i := 0;
      while i < |ws|
        invariant i <= |ws| && forall j :: 0 <= j < at ==> mem[j] == old(mem[j])
        invariant WordsAt(mem[..], at, ws[..i])
      {
        ghost var m := mem[..];
        PutWord(at + 4 * i, ws[i]);
        WordsMore(m, mem[..], at, ws, i);
        i := i + 1;
      }
      assert ws[..i] == ws;
    }

    /** Copies a string with its NUL. */
    method PutText(at: nat, text: seq<Byte>)
      requires at + |text| < mem.Length
      modifies mem
      ensures forall i :: 0 <= i < at ==> mem[i] == old(mem[i])
      ensures mem[at..at + |text|] == text && mem[at + |text|] == 0
    {
      var i := 0;
      while i < |text|
        invariant i <= |text| && forall j :: 0 <= j < at ==> mem[j] == old(mem[j])
        invariant mem[at..at + i] == text[..i]
      {
        mem[at + i] := text[i];
        assert text[..i + 1] == text[..i] + [text[i]];
        i := i + 1;
      }
      mem[at + |text|] := 0;
    }

    /** Counts a tag that was written at the end, and moves past it. */
    ghost method Note(t: Tag, m: seq<Byte>)
      requires params <= mem.Length && |m| == mem.Length && Listed(m, base, params, tags)
      requires TagOk(t) && TagAt(mem[..], params, t) && params + 4 * Size(t) <= mem.Length
      requires mem[..params] == m[..params]
      modifies this`tags
      ensures tags == old(tags) + [t] && Listed(mem[..], base, params + 4 * Size(t), tags)
    {
      ListedMore(m, mem[..], base, params, tags, t);
      tags := tags + [t];
    }

    /** Writes a tag without a string and moves on. */
    method Put(t: Tag)
      requires Valid() && TagOk(t) && !t.Cmdline? && params + 4 * Size(t) <= mem.Length
      modifies this, mem
      ensures Valid() && tags == old(tags) + [t] && params == old(params) + 4 * Size(t)
    {
      ghost var m := mem[..];
      PutWords(params, Words(t));
      Note(t, m);
      params := params + 4 * Size(t);
    }

    method PutCmdline(at: nat, line: seq<Byte>)
      requires TagOk(Cmdline(line)) && at + 4 * Size(Cmdline(line)) <= mem.Length
      modifies mem
      ensures mem[..at] == old(mem[..at]) && TagAt(mem[..], at, Cmdline(line))
    {
      CmdlineFits(line);
      PutWords(at, [Size(Cmdline(line)), ATAG_CMDLINE]);
      ghost var m := mem[..];
      PutText(at + 8, line);
      HeaderKept(m, mem[..], at, [Size(Cmdline(line)), ATAG_CMDLINE]);
    }

    /** Writes a command line; an empty one makes no tag. */
    method SetupCmdline(line: seq<Byte>)
      requires Valid() && |line| < 0x1000_0000 && forall i :: 0 <= i < |line| ==> line[i] != 0
      requires params + 4 * Size(Cmdline(line)) <= mem.Length
      modifies this, mem
      ensures Valid() && tags == if line == [] then old(tags) else old(tags) + [Cmdline(line)]
      ensures params == if line == [] then old(params) else old(params) + 4 * Size(Cmdline(line))
    {
      if line == [] {
        return;
      }
      ghost var m := mem[..];
      var t := Cmdline(line);
      PutCmdline(params, line);
      Note(t, m);
      params := params + 4 * Size(t);
    }

    /** Ends the list: walking memory from its start gives back the tags. */
    method SetupEnd()
      requires Valid() && params + 8 <= mem.Length
      modifies mem
      ensures Valid() && Walk(mem[..], base) == tags && WordsAt(mem[..], params, [0, 0]) == true
    {
      ghost var m := mem[..];
      var ws: seq<Word> := [0, ATAG_NONE];
      PutWords(params, ws);
      assert Read(mem[..], params + 4 * 1) == ws[1];
      ListedBelow(m, mem[..], base, params, tags);
      WalkIsList(mem[..], base, params, tags);
    }
  }

  /** The three tags every Linux guest gets: flags 1 and no root device, the revision, and the memory. */
  function Head(pagesize: Word, start: Word, len: Word): seq<Tag> {
    [Core(1, pagesize, 0), Revision(REVISION), Mem(start, len)]
  }

  /** The initial ramdisk of an image between two addresses, whose header of 0x40 bytes is skipped. */
  function Image(start: Word, end: Word): Tag {
    Initrd2((start + 0x40) % WORD_RANGE, (end - start - 0x40) % WORD_RANGE)
  }

  /** The same list as words in memory from `a` on: each tag's size in words and its number, then its arguments; the end
      tag is two zero words. */
  predicate GuestList(m: seq<Byte>, a: nat, pagesize: Word, start: Word, len: Word, image: Option<(Word, Word)>,
                      line: seq<Byte>)
  {
    && HeadAt(m, a, pagesize, start, len)
    && (image.Some? ==> ImageAt(m, a + 48, image.value.0, image.value.1))
    && var c := if image.Some? then a + 64 else a + 48;
    && (line != [] ==> LineAt(m, c, line))
    && WordsAt(m, if line == [] then c else c + 4 * ((8 + |line| + 5) / 4), [0, 0])
  }

  /** The initial ramdisk of an image from `start` to `end`, after a header of 0x40 bytes, in 32-bit words. */
  predicate ImageAt(m: seq<Byte>, a: nat, start: Word, end: Word) {
    WordsAt(m, a, [4, 0x5442_0005, (start + 0x40) % 0x1_0000_0000, (end - start - 0x40) % 0x1_0000_0000])
  }

  predicate LineAt(m: seq<Byte>, a: nat, line: seq<Byte>) {
    && (8 + |line| + 5) / 4 < WORD_RANGE && WordsAt(m, a, [(8 + |line| + 5) / 4, 0x5441_0009])
    && a + 8 + |line| < |m| && m[a + 8..a + 8 + |line|] == line && m[a + 8 + |line|] == 0
  }

  predicate HeadAt(m: seq<Byte>, a: nat, pagesize: Word, start: Word, len: Word) {
    && WordsAt(m, a, [5, 0x5441_0001, 1, pagesize, 0])
    && WordsAt(m, a + 20, [3, 0x5441_0007, 0xcfdf_dfdf])
    && WordsAt(m, a + 32, [4, 0x5441_0002, len, start])
  }

  lemma HeadListed(m: seq<Byte>, a: nat, end: nat, pagesize: Word, start: Word, len: Word)
    requires Listed(m, a, end, Head(pagesize, start, len))
    ensures end == a + 48 && HeadAt(m, a, pagesize, start, len)
  {
    var core, revision, mem := Core(1, pagesize, 0), Revision(REVISION), Mem(start, len);
    assert Head(pagesize, start, len) == [core, revision] + [mem] && [core, revision] == [core] + [revision];
    var at := ListedPeel(m, a, end, [core, revision], mem);
    var at' := ListedPeel(m, a, at, [core], revision);
    assert [core] == [] + [core];
    var at'' := ListedPeel(m, a, at', [], core);
  }

  lemma ImageListed(m: seq<Byte>, a: nat, end: nat, tags: seq<Tag>, pagesize: Word, start: Word, len: Word,
                    image: Option<(Word, Word)>)
    requires tags == Head(pagesize, start, len) + if image.None? then [] else [Image(image.value.0, image.value.1)]
    requires Listed(m, a, end, tags)
    ensures HeadAt(m, a, pagesize, start, len) == true
    ensures if image.None? then end == a + 48
            else end == a + 64 && ImageAt(m, a + 48, image.value.0, image.value.1) == true
  {
    var head := Head(pagesize, start, len);
    if image.None? {
      assert head + [] == head;
      HeadListed(m, a, end, pagesize, start, len);
    } else {
      var at := ListedPeel(m, a, end, head, Image(image.value.0, image.value.1));
      HeadListed(m, a, at, pagesize, start, len);
    }
  }

  lemma LineListed(m: seq<Byte>, a: nat, line: seq<Byte>)
    requires TagOk(Cmdline(line)) && TagAt(m, a, Cmdline(line))
    ensures LineAt(m, a, line) == true && Size(Cmdline(line)) == (8 + |line| + 5) / 4
  {
  }

  lemma GuestListed(m: seq<Byte>, a: nat, end: nat, most: seq<Tag>, tags: seq<Tag>, pagesize: Word, start: Word,
                    len: Word, image: Option<(Word, Word)>, line: seq<Byte>)
    requires most == Head(pagesize, start, len) + if image.None? then [] else [Image(image.value.0, image.value.1)]
    requires tags == if line == [] then most else most + [Cmdline(line)]
    requires Listed(m, a, end, tags) && WordsAt(m, end, [0, 0]) == true
    ensures GuestList(m, a, pagesize, start, len, image, line) == true
  {
    if line == [] {
      ImageListed(m, a, end, most, pagesize, start, len, image);
    } else {
      var at := ListedPeel(m, a, end, most, Cmdline(line));
      ImageListed(m, a, at, most, pagesize, start, len, image);
      LineListed(m, at, line);
      PartsListed(m, a, at, end, pagesize, start, len, image, line);
    }
  }

  lemma PartsListed(m: seq<Byte>, a: nat, at: nat, end: nat, pagesize: Word, start: Word, len: Word,
                    image: Option<(Word, Word)>, line: seq<Byte>)
    requires HeadAt(m, a, pagesize, start, len) == true
    requires if image.None? then at == a + 48
             else at == a + 64 && ImageAt(m, a + 48, image.value.0, image.value.1) == true
    requires line != [] && LineAt(m, at, line) == true
    requires end == at + 4 * ((8 + |line| + 5) / 4) && WordsAt(m, end, [0, 0]) == true
    ensures GuestList(m, a, pagesize, start, len, image, line) == true
  {
  }

  method SetupHead(b: Builder, pagesize: Word, start: Word, len: Word)
    requires b.Valid() && b.tags == [] && b.params + 48 <= b.mem.Length
    modifies b, b.mem
    ensures b.Valid() && b.params == old(b.params) + 48 && b.tags == Head(pagesize, start, len)
  {
    b.Put(Core(1, pagesize, 0));
    b.Put(Revision(REVISION));
    assert b.tags == [Core(1, pagesize, 0), Revision(REVISION)];
    b.Put(Mem(start, len));
  }

  method SetupImage(b: Builder, image: Option<(Word, Word)>)
    requires b.Valid() && b.params + 16 <= b.mem.Length
    modifies b, b.mem
    ensures b.Valid() && old(b.params) <= b.params <= old(b.params) + 16
    ensures b.tags == old(b.tags) + if image.None? then [] else [Image(image.value.0, image.value.1)]
  {
    if image.Some? {
      b.Put(Image(image.value.0, image.value.1));
    }
  }

  /** The list for a Linux guest; `image` is the initial ramdisk of the Android build. */
  method SetupAtags(b: Builder, pagesize: Word, start: Word, len: Word, image: Option<(Word, Word)>, line: seq<Byte>)
    requires b.Valid() && b.params == b.base && b.tags == []
    requires |line| < 0x1000_0000 && (forall i :: 0 <= i < |line| ==> line[i] != 0)
    requires b.base + 64 + 4 * Size(Cmdline(line)) + 8 <= b.mem.Length
    modifies b, b.mem
    ensures Walk(b.mem[..], b.base) ==
      Head(pagesize, start, len) + (if image.None? then [] else [Image(image.value.0, image.value.1)])
      + if line == [] then [] else [Cmdline(line)]
    ensures GuestList(b.mem[..], b.base, pagesize, start, len, image, line) == true
  {
    SetupHead(b, pagesize, start, len);
    SetupImage(b, image);
    ghost var most := b.tags;
    b.SetupCmdline(line);
    b.SetupEnd();
    GuestListed(b.mem[..], b.base, b.params, most, b.tags, pagesize, start, len, image, line);
  }

  lemma WordsMore(m: seq<Byte>, m': seq<Byte>, a: nat, ws: seq<Word>, i: nat)
    requires i < |ws| && a + 4 * |ws| <= |m| == |m'| && WordsAt(m, a, ws[..i]) && Read(m', a + 4 * i) == ws[i]
    requires forall k :: 0 <= k < a + 4 * i ==> m'[k] == m[k]
    ensures WordsAt(m', a, ws[..i + 1])
  {
    forall j: nat | j < i + 1
      ensures Read(m', a + 4 * j) == ws[j]
    {
      if j < i {
        assert Read(m, a + 4 * j) == ws[..i][j];
      }
    }
  }

  lemma HeaderKept(m: seq<Byte>, m': seq<Byte>, a: nat, ws: seq<Word>)
    requires |m| == |m'| && WordsAt(m, a, ws) && forall k :: 0 <= k < a + 4 * |ws| ==> m'[k] == m[k]
    ensures WordsAt(m', a, ws)
  {
    forall j: nat | j < |ws|
      ensures Read(m', a + 4 * j) == ws[j]
    {
      assert Read(m, a + 4 * j) == ws[j];
    }
  }
}
