/**
 The block log: an append-only file of packed blocks, each followed by its own starting
 position, and an index file holding the starting position of every block.

 Packing is a parameter.  All that is used of it is that unpacking reads back a packed block
 from the front of any byte sequence and reports how much it consumed.
 */
module BlockLog {
  import opened Options
  import opened Arithmetic

  type byte = x: int | 0 <= x < 256
  type Bytes = seq<byte>

  const LIMIT: nat := 0x1_0000_0000_0000_0000
  const BLOCK_SIZE: nat := 6291456          // CHAIN_BLOCK_SIZE

  // ----- Little-endian integers -----

  function Power(n: nat): nat { if n == 0 then 1 else 256 * Power(n - 1) }

  /** The `n` low bytes of `v`. */
  function Encode(n: nat, v: nat): (s: Bytes)
    ensures |s| == n
    decreases n, v
  {
    if n == 0 then [] else [v % 256] + Encode(n - 1, v / 256)
  }

  function Decode(s: Bytes): nat
  {
    if s == [] then 0 else s[0] + 256 * Decode(s[1..])
  }

  lemma {:induction false} RoundTrip(n: nat, v: nat)
    requires v < Power(n)
    ensures Decode(Encode(n, v)) == v
    decreases n
  {
    if n > 0 {
      RoundTrip(n - 1, v / 256);
      assert Encode(n, v)[1..] == Encode(n - 1, v / 256);
    }
  }

  lemma {:induction false} PowerPositive(n: nat)
    ensures Power(n) > 0
  {
    if n > 0 {
      PowerPositive(n - 1);
    }
  }

  /** The low bytes of an encoding are the remainder, the high ones the quotient. */
  lemma {:induction false} EncodeCut(n: nat, v: nat, q: nat)
    requires q <= n && v < Power(n)
    ensures Power(q) > 0
    ensures Decode(Encode(n, v)[..q]) == v % Power(q)
    ensures Decode(Encode(n, v)[q..]) == v / Power(q)
    decreases q
  {
    PowerPositive(q);
    var s := Encode(n, v);
    if q == 0 {
      RoundTrip(n, v);
      assert s[0..] == s;
    } else {
      var t := Encode(n - 1, v / 256);
      EncodeCut(n - 1, v / 256, q - 1);
      assert s[q..] == t[q - 1..];
      assert s[..q][1..] == t[..q - 1];
      CutStep(v, Power(q - 1));
    }
  }

  /** Division by `256 * p` in two steps. */
  lemma CutStep(v: nat, p: nat)
    requires p > 0
    ensures 256 * p > 0
    ensures v / 256 / p == v / (256 * p)
    ensures v % 256 + 256 * (v / 256 % p) == v % (256 * p)
  {
    DivDiv(v, 256, p);
    var w := v / 256;
    var k, r := w / p, v % 256 + 256 * (w % p);
    assert w == k * p + w % p;
    assert 256 * (k * p) == 256 * p * k;
    RemainderUnique(v, 256 * p, k, r);
  }

  lemma RemainderUnique(v: nat, c: nat, k: nat, r: nat)
    requires v == c * k + r && r < c
    ensures v % c == r
  {
    assert k * c <= v < (k + 1) * c;
    DivUnique(v, c, k);
  }

  lemma ConcatStep(x: int, p: int, d: int)
    ensures 256 * (x + p * d) == 256 * x + 256 * p * d
  {
  }

  lemma {:induction false} DecodeConcat(s: Bytes, t: Bytes)
    ensures Decode(s + t) == Decode(s) + Power(|s|) * Decode(t)
    decreases |s|
  {
    if s == [] {
      assert s + t == t;
    } else {
      DecodeConcat(s[1..], t);
      assert (s + t)[1..] == s[1..] + t;
      ConcatStep(Decode(s[1..]), Power(|s| - 1), Decode(t));
    }
  }

  function Word(v: nat): (s: Bytes)
    ensures |s| == 8
  {
    Encode(8, v)
  }

  lemma PowerWord()
    ensures Power(8) == LIMIT
  {
    assert Power(4) == 256 * Power(3) && Power(8) == 256 * Power(7);
  }

  lemma WordRoundTrip(v: nat)
    requires v < LIMIT
    ensures Decode(Word(v)) == v
  {
    PowerWord();
    RoundTrip(8, v);
  }

  // ----- What the two files hold after a sequence of appends -----

  datatype Codec<!B> = Codec(pack: B -> Bytes, unpack: Bytes -> Option<(B, nat)>, num: B -> nat)

  ghost predicate Lawful<B(!new)>(c: Codec<B>)
  {
    && (forall b {:trigger c.pack(b)} :: |c.pack(b)| > 0)
    && (forall b, rest {:trigger c.unpack(c.pack(b) + rest)} :: c.unpack(c.pack(b) + rest) == Some((b, |c.pack(b)|)))
  }

  function Log<B>(c: Codec<B>, bs: seq<B>): Bytes
  {
    if bs == [] then []
    else
      var before := Log(c, bs[..|bs| - 1]);
      before + c.pack(bs[|bs| - 1]) + Word(|before|)
  }

  /** Where block `i` starts, counting from 0. */
  function Start<B>(c: Codec<B>, bs: seq<B>, i: nat): nat
    requires i <= |bs|
  {
    |Log(c, bs[..i])|
  }

  /** Where each block starts. */
  function Positions<B>(c: Codec<B>, bs: seq<B>): (ps: seq<nat>)
    ensures |ps| == |bs|
  {
    seq(|bs|, i requires 0 <= i < |bs| => Start(c, bs, i))
  }

  /** An index file: one word for each position. */
  function Words(ps: seq<nat>): (s: Bytes)
    ensures |s| == 8 * |ps|
  {
    if ps == [] then [] else Words(ps[..|ps| - 1]) + Word(ps[|ps| - 1])
  }

  lemma {:induction false} LogSplit<B>(c: Codec<B>, bs: seq<B>, i: nat)
    requires i < |bs|
    ensures Start(c, bs, i + 1) == Start(c, bs, i) + |c.pack(bs[i])| + 8 <= |Log(c, bs)|
    ensures Log(c, bs)[Start(c, bs, i)..Start(c, bs, i + 1)] == c.pack(bs[i]) + Word(Start(c, bs, i))
    decreases |bs|
  {
    var last := |bs| - 1;
    assert bs[..i + 1][..i] == bs[..i];
    if i == last {
      assert bs[..i + 1] == bs;
    } else {
      LogSplit(c, bs[..last], i);
      assert bs[..last][..i] == bs[..i] && bs[..last][..i + 1] == bs[..i + 1];
      assert Log(c, bs)[..|Log(c, bs[..last])|] == Log(c, bs[..last]);
    }
  }

  lemma {:induction false} StartRises<B(!new)>(c: Codec<B>, bs: seq<B>, i: nat, j: nat)
    requires Lawful(c) && i < j <= |bs|
    ensures Start(c, bs, i) + 8 < Start(c, bs, j) <= |Log(c, bs)|
    decreases j
  {
    LogSplit(c, bs, j - 1);
    if i < j - 1 {
      StartRises(c, bs, i, j - 1);
    }
  }

  lemma PastLast<B(!new)>(c: Codec<B>, bs: seq<B>, k: nat)
    requires Lawful(c) && k <= |bs| && bs != []
    ensures Start(c, bs, k) > Start(c, bs, |bs| - 1) <==> k == |bs|
  {
    StartRises(c, bs, |bs| - 1, |bs|);
    if k < |bs| - 1 {
      StartRises(c, bs, k, |bs| - 1);
    }
  }

  lemma StartEnds<B>(c: Codec<B>, bs: seq<B>)
    ensures Start(c, bs, 0) == 0 && Start(c, bs, |bs|) == |Log(c, bs)|
  {
    assert bs[..|bs|] == bs;
  }

  lemma {:induction false} WordsAt(ps: seq<nat>, i: nat)
    requires i < |ps|
    ensures Words(ps)[8 * i..8 * i + 8] == Word(ps[i])
    decreases |ps|
  {
    if i < |ps| - 1 {
      WordsAt(ps[..|ps| - 1], i);
      PrefixParts(Words(ps[..|ps| - 1]), Word(ps[|ps| - 1]), 8 * i, 8 * i + 8);
    }
  }

  lemma PrefixParts(s: Bytes, t: Bytes, i: nat, j: nat)
    requires i <= j <= |s|
    ensures (s + t)[i..j] == s[i..j] && (s + t)[..i] == s[..i]
  {
  }

  lemma PositionsAppend<B>(c: Codec<B>, bs: seq<B>, b: B)
    ensures Positions(c, bs + [b]) == Positions(c, bs) + [|Log(c, bs)|]
    ensures Words(Positions(c, bs + [b])) == Words(Positions(c, bs)) + Word(|Log(c, bs)|)
  {
    var ps, qs := Positions(c, bs), Positions(c, bs + [b]);
    assert (bs + [b])[..|bs|] == bs;
    forall i | 0 <= i < |bs| ensures qs[i] == ps[i] {
      assert (bs + [b])[..i] == bs[..i];
    }
    assert qs == ps + [|Log(c, bs)|];
    assert qs[..|qs| - 1] == ps;
  }

  // ----- Reading -----

  /** A file shorter than a word counts as empty: a new file is created with one byte in it. */
  function Mapped(file: Bytes): Bytes
  {
    if |file| < 8 then [] else file
  }

  function GetWord(file: Bytes, pos: nat): Option<nat>
  {
    if |Mapped(file)| < pos + 8 then None else Some(Decode(file[pos..pos + 8]))
  }

  function GetLastWord(file: Bytes): Option<nat>
  {
    if |Mapped(file)| < 8 then None else Some(Decode(file[|file| - 8..]))
  }

  /** read_block: the block at `pos` and the position after it; it must be followed by `pos`. */
  function ReadBlock<B>(c: Codec<B>, file: Bytes, pos: nat): Option<(B, nat)>
  {
    if |Mapped(file)| <= pos then None
    else
      var most := if |file| - pos <= BLOCK_SIZE then |file| - pos else BLOCK_SIZE;
      match c.unpack(file[pos..pos + most])
      case None => None
      case Some((b, n)) =>
        if GetWord(file, pos + n) == Some(pos) then Some((b, pos + n + 8)) else None
  }

  function ReadHead<B>(c: Codec<B>, file: Bytes): Option<B>
  {
    match GetLastWord(file)
    case None => None
    case Some(pos) =>
      match ReadBlock(c, file, pos)
      case None => None
      case Some((b, _)) => Some(b)
  }

  /** Blocks of allowed size in a file that a 64-bit position can address, numbered from 1. */
  ghost predicate Loggable<B>(c: Codec<B>, bs: seq<B>)
  {
    && |Log(c, bs)| < LIMIT
    && forall i {:trigger bs[i]} :: 0 <= i < |bs| ==> c.num(bs[i]) == i + 1 && |c.pack(bs[i])| <= BLOCK_SIZE
  }

  lemma GetsWord(file: Bytes, pos: nat, v: nat)
    requires v < LIMIT && pos + 8 <= |file| && file[pos..pos + 8] == Word(v)
    ensures GetWord(file, pos) == Some(v)
  {
    WordRoundTrip(v);
  }

  lemma GetsLastWord(file: Bytes, v: nat)
    requires v < LIMIT && 8 <= |file| && file[|file| - 8..] == Word(v)
    ensures GetLastWord(file) == Some(v)
  {
    WordRoundTrip(v);
  }

  lemma Unpacks<B(!new)>(c: Codec<B>, b: B, rest: Bytes)
    requires Lawful(c)
    ensures c.unpack(c.pack(b) + rest) == Some((b, |c.pack(b)|)) && |c.pack(b)| > 0
  {
  }

  lemma RecordParts(file: Bytes, pos: nat, n: nat, most: nat, data: Bytes, word: Bytes)
    requires |data| == n <= most && pos + most <= |file| && |word| == 8 && pos + n + 8 <= |file|
    requires file[pos..pos + n + 8] == data + word
    ensures file[pos..pos + most] == data + file[pos..pos + most][n..]
    ensures file[pos + n..pos + n + 8] == word
  {
    var record := file[pos..pos + n + 8];
    assert record[..n] == data && record[n..] == word;
    assert file[pos..pos + most][..n] == record[..n];
    assert file[pos + n..pos + n + 8] == record[n..];
  }

  /** A record found in a file, whatever surrounds it. */
  lemma ReadsRecord<B(!new)>(c: Codec<B>, file: Bytes, pos: nat, b: B)
    requires Lawful(c) && |c.pack(b)| <= BLOCK_SIZE && pos < LIMIT
    requires pos + |c.pack(b)| + 8 <= |file| && file[pos..pos + |c.pack(b)| + 8] == c.pack(b) + Word(pos)
    ensures ReadBlock(c, file, pos) == Some((b, pos + |c.pack(b)| + 8))
  {
    hide Word, Lawful;
    var data := c.pack(b);
    var n := |data|;
    var most := if |file| - pos <= BLOCK_SIZE then |file| - pos else BLOCK_SIZE;
    var seen := file[pos..pos + most];
    RecordParts(file, pos, n, most, data, Word(pos));
    Unpacks(c, b, seen[n..]);
    GetsWord(file, pos + n, pos);
  }

  /** From the start of block `i` that block is read, and the reader ends up at the start of the next. */
  lemma ReadsBack<B(!new)>(c: Codec<B>, bs: seq<B>, i: nat)
    requires Lawful(c) && Loggable(c, bs) && i < |bs|
    ensures ReadBlock(c, Log(c, bs), Start(c, bs, i)) == Some((bs[i], Start(c, bs, i + 1)))
  {
    hide Log, Word, ReadBlock, Lawful;
    LogSplit(c, bs, i);
    ReadsRecord(c, Log(c, bs), Start(c, bs, i), bs[i]);
  }

  lemma LastPosition<B(!new)>(c: Codec<B>, bs: seq<B>)
    requires Lawful(c) && Loggable(c, bs) && bs != []
    ensures GetLastWord(Log(c, bs)) == Some(Start(c, bs, |bs| - 1))
  {
    StartRises(c, bs, |bs| - 1, |bs|);
    GetsLastWord(Log(c, bs), Start(c, bs, |bs| - 1));
  }

  lemma ReadsHead<B(!new)>(c: Codec<B>, bs: seq<B>)
    requires Lawful(c) && Loggable(c, bs) && bs != []
    ensures ReadHead(c, Log(c, bs)) == Some(bs[|bs| - 1])
  {
    LastPosition(c, bs);
    ReadsBack(c, bs, |bs| - 1);
  }

  /** Everything a reader finds who starts at `pos` and goes on where the last block ended. */
  function Walk<B>(c: Codec<B>, file: Bytes, pos: nat): seq<B>
    decreases |file| - pos
  {
    match ReadBlock(c, file, pos)
    case None => []
    case Some((b, next)) => [b] + Walk(c, file, next)
  }

  lemma EndOfLog<B>(c: Codec<B>, bs: seq<B>)
    ensures ReadBlock(c, Log(c, bs), |Log(c, bs)|) == None
  {
  }

  lemma {:induction false} WalkVisitsRest<B(!new)>(c: Codec<B>, bs: seq<B>, i: nat)
    requires Lawful(c) && Loggable(c, bs) && i <= |bs|
    ensures Walk(c, Log(c, bs), Start(c, bs, i)) == bs[i..]
    decreases |bs| - i
  {
    hide Log, Lawful, Loggable, ReadBlock, Start;
    StartEnds(c, bs);
    EndOfLog(c, bs);
    if i < |bs| {
      ReadsBack(c, bs, i);
      WalkVisitsRest(c, bs, i + 1);
    }
  }

  /** The walk from position 0 visits exactly all the blocks. */
  lemma WalkVisitsAll<B(!new)>(c: Codec<B>, bs: seq<B>)
    requires Lawful(c) && Loggable(c, bs)
    ensures Walk(c, Log(c, bs), 0) == bs
  {
    StartEnds(c, bs);
    WalkVisitsRest(c, bs, 0);
  }

  // ----- Opening with an index that may be out of date -----

  ghost predicate Rising(ps: seq<nat>)
  {
    && (forall i, j :: 0 <= i < j < |ps| ==> ps[i] < ps[j])
    && (forall i :: 0 <= i < |ps| ==> ps[i] < LIMIT)
  }

  lemma PositionsRise<B(!new)>(c: Codec<B>, bs: seq<B>)
    requires Lawful(c) && Loggable(c, bs)
    ensures Rising(Positions(c, bs))
  {
    forall i: nat, j: nat | i < j <= |bs| ensures Start(c, bs, i) < Start(c, bs, j) < LIMIT {
      StartRises(c, bs, i, j);
    }
    var ps := Positions(c, bs);
    forall i | 0 <= i < |ps| ensures ps[i] < LIMIT {
      assert Start(c, bs, i) < Start(c, bs, i + 1);
    }
  }

  /** open keeps an index whose last word is the position of the last block. */
  predicate KeepsIndex(ps: seq<nat>, index: Bytes)
    requires ps != []
  {
    GetLastWord(index) == Some(ps[|ps| - 1])
  }

  /** The index file after opening a log with blocks at the positions `ps` next to the file `index`. */
  function OpenedIndex(ps: seq<nat>, index: Bytes): Bytes
    requires ps != []
  {
    if KeepsIndex(ps, index) then index else Words(ps)
  }

  lemma WholeWord(s: Bytes, n: nat, v: nat)
    requires 8 <= n <= |s| && v < LIMIT && s[n - 8..n] == Word(v)
    ensures GetLastWord(s[..n]) == Some(v)
  {
    hide Word;
    assert s[..n][n - 8..] == s[n - 8..n];
    GetsLastWord(s[..n], v);
  }

  lemma LastOfWords(ps: seq<nat>, m: nat)
    requires Rising(ps) && 0 < m <= |ps|
    ensures GetLastWord(Words(ps)[..8 * m]) == Some(ps[m - 1])
  {
    hide Word, Words;
    WordsAt(ps, m - 1);
    WholeWord(Words(ps), 8 * m, ps[m - 1]);
  }

  /** What the eight bytes spell that start `q` bytes into the entry `a`, when the next entry is `b`. */
  function Straddled(a: nat, b: nat, q: nat): nat
    requires q < 8
  {
    Decode(Word(a)[q..] + Word(b)[..q])
  }

  lemma StraddledValue(a: nat, b: nat, q: nat)
    requires a < LIMIT && b < LIMIT && q < 8
    ensures Power(q) > 0 && Straddled(a, b, q) == a / Power(q) + Power(8 - q) * (b % Power(q))
  {
    PowerWord();
    DecodeConcat(Word(a)[q..], Word(b)[..q]);
    EncodeCut(8, a, q);
    EncodeCut(8, b, q);
  }

  lemma LastBytes(s: Bytes, n: nat, x: nat, y: nat, q: nat, v: Bytes, w: Bytes)
    requires y == x + 8 && y + 8 <= |s| && q < 8 && |v| == |w| == 8 && n == y + q && s[x..y] == v && s[y..y + 8] == w
    ensures GetLastWord(s[..n]) == Some(Decode(v[q..] + w[..q]))
  {
    assert s[..n][n - 8..] == s[x + q..x + 8] + s[x + 8..x + 8 + q];
    assert s[x + q..x + 8] == s[x..x + 8][q..] && s[x + 8..x + 8 + q] == s[x + 8..x + 16][..q];
  }

  lemma LastOfBrokenWord(ps: seq<nat>, m: nat, q: nat, n: nat)
    requires 0 < m < |ps| && q < 8 && n == 8 * m + q
    ensures GetLastWord(Words(ps)[..n]) == Some(Straddled(ps[m - 1], ps[m], q))
  {
    hide Word, Words, GetLastWord, Decode;
    WordsAround(ps, m);
    LastBytes(Words(ps), n, 8 * m - 8, 8 * m, q, Word(ps[m - 1]), Word(ps[m]));
  }

  lemma WordsAround(ps: seq<nat>, m: nat)
    requires 0 < m < |ps|
    ensures Words(ps)[8 * m - 8..8 * m] == Word(ps[m - 1]) && Words(ps)[8 * m..8 * m + 8] == Word(ps[m])
  {
    hide Word, Words;
    WordsAt(ps, m - 1);
    WordsAt(ps, m);
    assert 8 * (m - 1) == 8 * m - 8;
  }

  lemma TooShort(file: Bytes)
    requires |file| < 8
    ensures GetLastWord(file) == None
  {
  }

  /** Which prefixes of an index are taken for the whole. */
  lemma PrefixKept(ps: seq<nat>, m: nat, q: nat, n: nat)
    requires Rising(ps) && m < |ps| && q < 8 && n == 8 * m + q
    ensures KeepsIndex(ps, Words(ps)[..n]) <==> q > 0 && m > 0 && Straddled(ps[m - 1], ps[m], q) == ps[|ps| - 1]
  {
    hide Word, Words, GetLastWord, Straddled;
    if m == 0 {
      TooShort(Words(ps)[..n]);
    } else if q == 0 {
      LastOfWords(ps, m);
    } else {
      LastOfBrokenWord(ps, m, q, n);
    }
  }

  /**
   Opening with the first `n` bytes of the index restores it, except exactly when `n` falls
   inside a word and the eight bytes before the cut spell the position of the last block.
   */
  lemma OpenRestoresIndex(ps: seq<nat>, n: nat)
    requires Rising(ps) && ps != [] && n <= 8 * |ps|
    ensures var m, q := n / 8, n % 8;
            OpenedIndex(ps, Words(ps)[..n]) == Words(ps) <==>
            q == 0 || m == 0 || Straddled(ps[m - 1], ps[m], q) != ps[|ps| - 1]
  {
    hide Word, Words, KeepsIndex, Straddled, Rising;
    if n == 8 * |ps| {
      assert Words(ps)[..n] == Words(ps);
    } else {
      PrefixKept(ps, n / 8, n % 8, n);
    }
  }

  /** The same for the index of a log. */
  lemma OpenRestoresLog<B(!new)>(c: Codec<B>, bs: seq<B>, n: nat)
    requires Lawful(c) && Loggable(c, bs) && bs != [] && n <= 8 * |bs|
    ensures var ps, m, q := Positions(c, bs), n / 8, n % 8;
            OpenedIndex(ps, Words(ps)[..n]) == Words(ps) <==>
            q == 0 || m == 0 || Straddled(ps[m - 1], ps[m], q) != ps[|ps| - 1]
  {
    hide OpenedIndex, Words, Straddled, Positions;
    PositionsRise(c, bs);
    OpenRestoresIndex(Positions(c, bs), n);
  }

  /** Three blocks of 120, 32632 and 120 bytes, whose log positions are 0, 128 and 32768. */
  datatype Sample = One | Two | Three

  function PackSample(b: Sample): Bytes
  {
    match b
    case One => [1] + seq(119, i => 0)
    case Two => [2] + seq(32631, i => 0)
    case Three => [3] + seq(119, i => 0)
  }

  function UnpackSample(s: Bytes): Option<(Sample, nat)>
  {
    if s == [] then None
    else if s[0] == 1 then Some((One, 120))
    else if s[0] == 2 then Some((Two, 32632))
    else if s[0] == 3 then Some((Three, 120))
    else None
  }

  function NumSample(b: Sample): nat { match b case One => 1 case Two => 2 case Three => 3 }

  lemma SampleLog()
    ensures var c, bs := Codec(PackSample, UnpackSample, NumSample), [One, Two, Three];
            Lawful(c) && Loggable(c, bs) && Positions(c, bs) == [0, 128, 32768]
  {
    var c, bs := Codec(PackSample, UnpackSample, NumSample), [One, Two, Three];
    forall b: Sample, rest: Bytes ensures UnpackSample(PackSample(b) + rest) == Some((b, |PackSample(b)|)) {
      assert |PackSample(b)| > 0 && (PackSample(b) + rest)[0] == PackSample(b)[0];
    }
    LogSplit(c, bs, 0);
    LogSplit(c, bs, 1);
    LogSplit(c, bs, 2);
    StartEnds(c, bs);
  }

  /**
   An index cut off inside a word may be taken for complete: the last eight bytes of the first
   fifteen straddle two entries and happen to spell the position of the last block.
   */
  lemma BrokenIndexKept()
    ensures var ps := Positions(Codec(PackSample, UnpackSample, NumSample), [One, Two, Three]);
            Rising(ps) && |Words(ps)| == 24 && OpenedIndex(ps, Words(ps)[..15]) == Words(ps)[..15]
  {
    SampleLog();
    var ps := [0, 128, 32768];
    assert Power(7) == 0x100_0000_0000_0000 by { assert Power(4) == 256 * Power(3); }
    StraddledValue(0, 128, 7);
    LastOfBrokenWord(ps, 1, 7, 15);
  }

  // ----- The log -----

  /** Overwriting the word at `at`. */
  function PutWord(file: Bytes, at: nat, v: nat): (r: Bytes)
    requires at + 8 <= |file|
    ensures |r| == |file|
  {
    file[..at] + Word(v) + file[at + 8..]
  }

  lemma NoWords(ps: seq<nat>)
    ensures Words(ps[..0]) == []
  {
  }

  lemma PutNext(ps: seq<nat>, k: nat, file: Bytes)
    requires k < |ps| && |file| == 8 * |ps| && file[..8 * k] == Words(ps[..k])
    ensures PutWord(file, 8 * k, ps[k])[..8 * (k + 1)] == Words(ps[..k + 1])
  {
    assert ps[..k + 1][..k] == ps[..k];
    assert PutWord(file, 8 * k, ps[k])[..8 * (k + 1)] == file[..8 * k] + Word(ps[k]);
  }

  class LogFile<B(!new)> {
    const codec: Codec<B>
    var blockFile: Bytes
    var indexFile: Bytes
    var head: Option<B>

    /** The files hold the blocks `bs`. */
    ghost predicate Holds(bs: seq<B>)
      reads this
    {
      && Lawful(codec) && Loggable(codec, bs)
      && Mapped(blockFile) == Log(codec, bs)
      && Mapped(indexFile) == Words(Positions(codec, bs))
      && head == (if bs == [] then None else Some(bs[|bs| - 1]))
    }

    /** Creation: each file gets a single zero byte. */
    constructor (codec: Codec<B>)
      requires Lawful(codec)
      ensures Holds([]) && this.codec == codec
    {
      this.codec, blockFile, indexFile, head := codec, [0], [0], None;
    }

    /** append: refused unless the block is the next one. */
    method Append(b: B, ghost bs: seq<B>) returns (pos: Option<nat>)
      requires Holds(bs)
      requires |codec.pack(b)| <= BLOCK_SIZE && |Log(codec, bs + [b])| < LIMIT && codec.num(b) > 0
      modifies this`blockFile, this`indexFile, this`head
      ensures pos == if codec.num(b) == |bs| + 1 then Some(Start(codec, bs + [b], |bs|)) else None
      ensures Holds(if pos.Some? then bs + [b] else bs)
    {
      var indexPos := |Mapped(indexFile)|;
      if indexPos != 8 * (codec.num(b) - 1) {
        return None;
      }
      var at := |Mapped(blockFile)|;
      assert (bs + [b])[..|bs|] == bs;
      PositionsAppend(codec, bs, b);
      blockFile := Mapped(blockFile) + codec.pack(b) + Word(at);
      indexFile := Mapped(indexFile) + Word(at);
      head := Some(b);
      return Some(at);
    }

    /** read_block_by_num: nothing for a number that is not in the log. */
    method ReadBlockByNum(n: nat, ghost bs: seq<B>) returns (r: Option<B>, ok: bool)
      requires Holds(bs)
      ensures ok && r == if 0 < n <= |bs| then Some(bs[n - 1]) else None
    {
      if head.None? || n > codec.num(head.value) || n == 0 {
        return None, true;
      }
      WordsAt(Positions(codec, bs), n - 1);
      StartRises(codec, bs, n - 1, |bs|);
      GetsWord(indexFile, 8 * (n - 1), Start(codec, bs, n - 1));
      ReadsBack(codec, bs, n - 1);
      var pos := GetWord(indexFile, 8 * (n - 1));
      if pos.None? {
        return None, false;
      }
      var read := ReadBlock(codec, blockFile, pos.value);
      if read.None? || codec.num(read.value.0) != n {
        return None, false;
      }
      return Some(read.value.0), true;
    }

    /** construct_index: walk through the log and write down every position. */
    method ConstructIndex(ghost bs: seq<B>)
      requires Lawful(codec) && Loggable(codec, bs) && bs != []
      requires blockFile == Log(codec, bs) && head == Some(bs[|bs| - 1])
      modifies this`indexFile
      ensures indexFile == Words(Positions(codec, bs))
    {
      hide Log, ReadBlock, Word, Words, Lawful, PutWord;
      ghost var ps := Positions(codec, bs);
      NoWords(ps);
      indexFile := seq(8 * codec.num(head.value), i => 0);
      LastPosition(codec, bs);
      StartEnds(codec, bs);
      PastLast(codec, bs, 0);
      var pos, end, at := 0, GetLastWord(blockFile).value, 0;
      ghost var k := 0;
      while pos <= end
        invariant 0 <= k <= |bs| && pos == Start(codec, bs, k) && at == 8 * k
        invariant |indexFile| == 8 * |bs| && indexFile[..at] == Words(ps[..k])
        invariant pos > end <==> k == |bs|
        decreases |bs| - k
      {
        ReadsBack(codec, bs, k);
        PutNext(ps, k, indexFile);
        indexFile := PutWord(indexFile, at, pos);
        pos := ReadBlock(codec, blockFile, pos).value.1;
        at, k := at + 8, k + 1;
        PastLast(codec, bs, k);
      }
      assert ps[..k] == ps;
    }

    /**
     open, on a sound log and any index file: the index is rebuilt unless its last word is the
     position of the last block, and then it is taken as it is.
     */
    method Open(ghost bs: seq<B>)
      requires Lawful(codec) && Loggable(codec, bs) && head.None?
      requires blockFile == Log(codec, bs) || (bs == [] && |blockFile| < 8)
      modifies this`blockFile, this`indexFile, this`head
      ensures Mapped(blockFile) == Log(codec, bs) && head == (if bs == [] then None else Some(bs[|bs| - 1]))
      ensures bs == [] ==> Holds(bs)
      ensures bs != [] ==> indexFile == OpenedIndex(Positions(codec, bs), old(indexFile))
    {
      if blockFile == [] {
        blockFile := [0];
      }
      if indexFile == [] {
        indexFile := [0];
      }
      if bs != [] {
        StartRises(codec, bs, 0, |bs|);
      }
      if |blockFile| > 8 {
        ReadsHead(codec, bs);
        LastPosition(codec, bs);
        head := ReadHead(codec, blockFile);
        if |indexFile| < 8 || GetLastWord(blockFile) != GetLastWord(indexFile) {
          ConstructIndex(bs);
        }
      } else {
        if |indexFile| >= 8 {
          blockFile, indexFile := [0], [0];
        }
      }
    }
  }
}
