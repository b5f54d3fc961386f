/** The kernel's buffer of inotify events, and its parser. */
module InotifyBuffer {
  const HEAD := 16

  type Name = seq<int>

  /** An event as the parser yields it. */
  datatype Raw = Raw(wd: int, mask: int, cookie: int, name: Name)

  function Word(b: seq<int>): int
    requires |b| >= 4
  {
    b[0] + b[1] * 0x100 + b[2] * 0x1_0000 + b[3] * 0x100_0000
  }

  function Signed(n: int): int { if n >= 0x8000_0000 then n - 0x1_0000_0000 else n }

  function StripZeros(name: Name): Name
    decreases |name|
  {
    if name != [] && name[|name| - 1] == 0 then StripZeros(name[..|name| - 1]) else name
  }

  predicate AreBytes(s: seq<int>) { forall i :: 0 <= i < |s| ==> 0 <= s[i] < 0x100 }

  function Min(a: int, b: int): int { if a < b then a else b }

  function Skip(data: seq<int>): (n: int)
    requires |data| >= HEAD && AreBytes(data)
    ensures HEAD <= n <= |data|
  {
    Min(HEAD + Word(data[12..]), |data|)
  }

  function First(data: seq<int>): Raw
    requires |data| >= HEAD && AreBytes(data)
  {
    Raw(Signed(Word(data)), Word(data[4..]), Word(data[8..]), StripZeros(data[HEAD..Skip(data)]))
  }

  /** Events with a negative descriptor (a queue overflow) are dropped. */
  function Kept(e: Raw): seq<Raw> { if e.wd >= 0 then [e] else [] }

  function Parse(data: seq<int>): seq<Raw>
    requires AreBytes(data)
    decreases |data|
  {
    if |data| < HEAD then [] else Kept(First(data)) + Parse(data[Skip(data)..])
  }

  /** What is left to parse from an offset on. */
  function Rest(data: seq<int>, offset: nat): seq<Raw>
    requires AreBytes(data)
  {
    if offset <= |data| then Parse(data[offset..]) else []
  }

  lemma WordNotNegative(b: seq<int>)
    requires |b| >= 4 && AreBytes(b)
    ensures Word(b) >= 0
  {}

  lemma RestAt(data: seq<int>, offset: nat)
    requires AreBytes(data) && offset + HEAD <= |data|
    ensures var head := data[offset..];
      var next := offset + HEAD + Word(head[12..]);
      && next > offset
      && Rest(data, offset) == Kept(First(head)) + Rest(data, next)
  {
    hide First;
    hide Kept;
    var head := data[offset..];
    var next := offset + HEAD + Word(head[12..]);
    WordNotNegative(head[12..]);
    hide Word;
    if next <= |data| {
      assert head[Skip(head)..] == data[next..];
    } else {
      assert head[Skip(head)..] == [];
      ParseShort([]);
    }
  }

  lemma RestEnds(data: seq<int>, offset: nat)
    requires AreBytes(data)
    ensures offset + HEAD > |data| ==> Rest(data, offset) == []
    ensures Rest(data, 0) == Parse(data)
  {
    assert data[0..] == data;
  }

  lemma ParseShort(data: seq<int>)
    requires AreBytes(data) && |data| < HEAD
    ensures Parse(data) == []
  {}

  /** The loop over the buffer with its offset. */
  method ParsedBuffer(data: seq<int>) returns (events: seq<Raw>)
    requires AreBytes(data)
    ensures events == Parse(data)
  {
    hide Rest;
    hide Parse;
    hide First;
    hide Word;
    var offset := 0;
    events := [];
    RestEnds(data, 0);
    while offset + HEAD <= |data|
      invariant 0 <= offset && Parse(data) == events + Rest(data, offset)
      decreases |data| - offset
    {
      RestAt(data, offset);
      var head := data[offset..];
      var length := Word(head[12..]);
      var e := First(head);
      offset := offset + HEAD + length;
      if e.wd >= 0 {
        events := events + [e];
      }
    }
    RestEnds(data, offset);
  }

  // ----- what the kernel writes -----

  /** An event with its name padded by zeros. */
  datatype Record = Record(e: Raw, padding: nat)

  predicate ValidRecord(r: Record) {
    && -0x8000_0000 <= r.e.wd < 0x8000_0000 && 0 <= r.e.mask < 0x1_0000_0000 && 0 <= r.e.cookie < 0x1_0000_0000
    && AreBytes(r.e.name) && (r.e.name != [] ==> r.e.name[|r.e.name| - 1] != 0)
    && |r.e.name| + r.padding < 0x1_0000_0000
  }

  function WordBytes(n: int): (b: seq<int>)
    ensures |b| == 4 && AreBytes(b)
  {
    [n % 0x100, n / 0x100 % 0x100, n / 0x1_0000 % 0x100, n / 0x100_0000 % 0x100]
  }

  function Zeros(n: nat): (z: seq<int>)
    ensures |z| == n && forall i :: 0 <= i < n ==> z[i] == 0
  {
    seq(n, _ => 0)
  }

  function Header(r: Record): (h: seq<int>)
    ensures |h| == HEAD
  {
    WordBytes(if r.e.wd < 0 then r.e.wd + 0x1_0000_0000 else r.e.wd) + WordBytes(r.e.mask) + WordBytes(r.e.cookie)
    + WordBytes(|r.e.name| + r.padding)
  }

  function Encode(r: Record): seq<int> { Header(r) + (r.e.name + Zeros(r.padding)) }

  function EncodeAll(rs: seq<Record>): seq<int> { if rs == [] then [] else Encode(rs[0]) + EncodeAll(rs[1..]) }

  function KeptAll(rs: seq<Record>): seq<Raw> { if rs == [] then [] else Kept(rs[0].e) + KeptAll(rs[1..]) }

  predicate ValidRecords(rs: seq<Record>) { forall i :: 0 <= i < |rs| ==> ValidRecord(rs[i]) }

  lemma WordOfBytes(n: int)
    requires 0 <= n < 0x1_0000_0000
    ensures Word(WordBytes(n)) == n
  {
    FourDigits(n);
  }

  lemma FourDigits(n: int)
    requires 0 <= n < 0x1_0000_0000
    ensures n % 0x100 + n / 0x100 % 0x100 * 0x100 + n / 0x1_0000 % 0x100 * 0x1_0000
            + n / 0x100_0000 % 0x100 * 0x100_0000 == n
  {
    var q1, q2, q3 := n / 0x100, n / 0x1_0000, n / 0x100_0000;
    assert n == q1 * 0x100 + n % 0x100;
    assert q1 == q2 * 0x100 + q1 % 0x100;
    assert q2 == q3 * 0x100 + q2 % 0x100;
  }

  lemma {:induction false} StripPadding(name: Name, n: nat)
    requires name != [] ==> name[|name| - 1] != 0
    ensures StripZeros(name + Zeros(n)) == name
    decreases n
  {
    if n == 0 {
      assert name + Zeros(0) == name;
    } else {
      assert (name + Zeros(n))[..|name| + n - 1] == name + Zeros(n - 1);
      StripPadding(name, n - 1);
    }
  }

  lemma HeaderWords(r: Record, rest: seq<int>)
    requires ValidRecord(r)
    ensures var data := Header(r) + rest;
      && Signed(Word(data)) == r.e.wd && Word(data[4..]) == r.e.mask && Word(data[8..]) == r.e.cookie
      && Word(data[12..]) == |r.e.name| + r.padding
  {
    hide Word;
    var wd := if r.e.wd < 0 then r.e.wd + 0x1_0000_0000 else r.e.wd;
    WordOfBytes(wd);
    WordOfBytes(r.e.mask);
    WordOfBytes(r.e.cookie);
    WordOfBytes(|r.e.name| + r.padding);
    hide WordBytes;
    var data := Header(r) + rest;
    SameWord(data, WordBytes(wd));
    SameWord(data[4..], WordBytes(r.e.mask));
    SameWord(data[8..], WordBytes(r.e.cookie));
    SameWord(data[12..], WordBytes(|r.e.name| + r.padding));
  }

  lemma SameWord(a: seq<int>, b: seq<int>)
    requires |a| >= 4 && |b| >= 4 && (forall i :: 0 <= i < 4 ==> a[i] == b[i])
    ensures Word(a) == Word(b)
  {}

  lemma FirstOfEncoded(r: Record, rest: seq<int>)
    requires ValidRecord(r) && AreBytes(rest)
    ensures AreBytes(Encode(r) + rest)
    ensures First(Encode(r) + rest) == r.e && (Encode(r) + rest)[Skip(Encode(r) + rest)..] == rest
  {
    hide Word;
    hide WordBytes;
    hide StripZeros;
    var data := Encode(r) + rest;
    assert data == Header(r) + ((r.e.name + Zeros(r.padding)) + rest);
    HeaderWords(r, (r.e.name + Zeros(r.padding)) + rest);
    assert Skip(data) == HEAD + |r.e.name| + r.padding;
    assert data[HEAD..Skip(data)] == r.e.name + Zeros(r.padding);
    StripPadding(r.e.name, r.padding);
  }

  lemma ParseEncodedFirst(r: Record, tail: seq<int>)
    requires ValidRecord(r) && AreBytes(tail)
    ensures AreBytes(Encode(r) + tail) && Parse(Encode(r) + tail) == Kept(r.e) + Parse(tail)
  {
    hide First;
    hide Skip;
    FirstOfEncoded(r, tail);
    EncodedSize(r);
    hide Encode;
  }

  lemma EncodedSize(r: Record)
    ensures |Encode(r)| >= HEAD
  {}

  /** Parsing what the kernel wrote gives back its events, and what follows a whole number of events
      is parsed on its own: a read may stop after any event. */
  lemma {:induction false} ParseOfEncoded(rs: seq<Record>, rest: seq<int>)
    requires ValidRecords(rs) && AreBytes(rest)
    ensures AreBytes(EncodeAll(rs) + rest)
    ensures Parse(EncodeAll(rs) + rest) == KeptAll(rs) + Parse(rest)
    decreases |rs|
  {
    hide Parse;
    hide Kept;
    hide Encode;
    if rs == [] {
      assert EncodeAll(rs) + rest == rest;
    } else {
      ParseOfEncoded(rs[1..], rest);
      ParseEncodedFirst(rs[0], EncodeAll(rs[1..]) + rest);
      assert EncodeAll(rs) + rest == Encode(rs[0]) + (EncodeAll(rs[1..]) + rest);
    }
  }
}
