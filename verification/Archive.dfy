/**
 * `Archive` (src/archive.cpp): the buffered typed writer and reader, proved
 * against the unbuffered byte stream. `File` reads short only at end of file and
 * writes completely; integers are stored low byte first.
 */
module ArchiveModel {
  import opened Common

  type U16 = x: int | 0 <= x < 0x1_0000
  type U32 = x: int | 0 <= x < 0x1_0000_0000
  type I32 = x: int | -0x8000_0000 <= x < 0x8000_0000

  const TWO31 := 0x8000_0000
  const TWO32 := 0x1_0000_0000

  // ---- Values and their encoding ------------------------------------------

  datatype Value =
    | Small(u8: Byte)
    | Short(u16: U16)
    | Long(i32: I32)
    | Word(u32: U32)
    | Flag(b: bool)
    | Text(s: seq<Byte>)

  datatype Kind = KSmall | KShort | KLong | KWord | KFlag | KText

  function KindOf(v: Value): Kind {
    match v
    case Small(_) => KSmall case Short(_) => KShort case Long(_) => KLong
    case Word(_) => KWord case Flag(_) => KFlag case Text(_) => KText
  }

  /** What `strlen` sees of a byte string. */
  function UpToNul(s: seq<Byte>): (t: seq<Byte>)
    ensures t <= s && 0 !in t
    ensures |t| < |s| ==> s[|t|] == 0
  {
    if s == [] || s[0] == 0 then [] else [s[0]] + UpToNul(s[1..])
  }

  /** The part of a string that is stored: up to its NUL, with the length cut to 32 bits. */
  function Storable(s: seq<Byte>): seq<Byte> {
    UpToNul(s)[..|UpToNul(s)| % TWO32]
  }

  function Encode(v: Value): seq<Byte> {
    match v
    case Small(n) => [n]
    case Short(n) => LittleEndian(n, 2)
    case Long(n) => LittleEndian(n % TWO32, 4)
    case Word(n) => LittleEndian(n, 4)
    case Flag(b) => LittleEndian(if b then 1 else 0, 4)
    case Text(s) => LittleEndian(|Storable(s)|, 4) + Storable(s)
  }

  /** The bytes of each kind of value: integers low byte first in their own width, a
      flag in four bytes, a string behind its four-byte count. */
  lemma EncodingIs(v: Value, i: nat)
    ensures |Encode(v)| == match v
                           case Small(_) => 1
                           case Short(_) => 2
                           case Text(s) => 4 + |Storable(s)|
                           case _ => 4
    ensures i < |Encode(v)| ==>
              Encode(v)[i] ==
              match v
              case Small(n) => n
              case Short(n) => n / Pow256(i) % 256
              case Long(n) => n % TWO32 / Pow256(i) % 256
              case Word(n) => n / Pow256(i) % 256
              case Flag(b) => if b && i == 0 then 1 else 0
              case Text(s) => if i < 4 then |Storable(s)| / Pow256(i) % 256 else Storable(s)[i - 4]
  {
    if i < |Encode(v)| {
      match v
      case Small(n) =>
      case Short(n) => LittleEndianDigit(n, 2, i);
      case Long(n) => LittleEndianDigit(n % TWO32, 4, i);
      case Word(n) => LittleEndianDigit(n, 4, i);
      case Flag(b) => FlagBytes(b, i);
      case Text(s) => if i < 4 { LittleEndianDigit(|Storable(s)|, 4, i); }
    }
  }

  lemma FlagBytes(b: bool, i: nat)
    requires i < 4
    ensures LittleEndian(if b then 1 else 0, 4)[i] == if b && i == 0 then 1 else 0
  {
    assert LittleEndian(0, 3) == [0, 0, 0];
    assert LittleEndian(if b then 1 else 0, 4) == [if b then 1 else 0] + LittleEndian(0, 3);
  }

  /** What is stored of a string with `m` bytes before its end or its first NUL. */
  lemma {:induction false} StorableIs(s: seq<Byte>, m: nat)
    requires m <= |s| && 0 !in s[..m] && (m < |s| ==> s[m] == 0)
    ensures Storable(s) == s[..m % TWO32]
  {
    var t := UpToNul(s);
    assert forall i :: 0 <= i < m ==> s[i] == s[..m][i];
    assert |t| == m;
  }

  function EncodeAll(vs: seq<Value>): seq<Byte> {
    if vs == [] then [] else Encode(vs[0]) + EncodeAll(vs[1..])
  }

  // ---- The unbuffered reader ----------------------------------------------

  /** Reading `n` bytes of an unread stream through a buffer of `cap` bytes. */
  function Take(stream: seq<Byte>, n: nat, cap: nat): Option<seq<Byte>> {
    if n <= |stream| && n <= cap then Some(stream[..n]) else None
  }

  function SignedOf(n: nat): I32
    requires n < TWO32
  {
    if n < 0x8000_0000 then n else n - TWO32
  }

  function Width(k: Kind): nat { match k case KSmall => 1 case KShort => 2 case _ => 4 }

  /** Value of a fixed-width field; for a string, of its count. */
  function ScalarOf(bs: seq<Byte>, k: Kind): Value
    requires |bs| == Width(k)
  {
    FromLittleEndianBound(bs);
    assert Pow256(1) == 256 && Pow256(2) == 0x1_0000 && Pow256(4) == TWO32;
    var n := FromLittleEndian(bs);
    match k
    case KSmall => Small(n)
    case KShort => Short(n)
    case KLong => Long(SignedOf(n))
    case KWord => Word(n)
    case KFlag => Flag(SignedOf(n) != 0)
    case KText => Word(n)
  }

  lemma {:induction false} ZeroBytes(bs: seq<Byte>)
    ensures FromLittleEndian(bs) == 0 <==> forall i :: 0 <= i < |bs| ==> bs[i] == 0
  {
    if bs != [] {
      ZeroBytes(bs[1..]);
      if forall i :: 0 <= i < |bs| - 1 ==> bs[1..][i] == 0 {
        assert forall i :: 1 <= i < |bs| ==> bs[i] == bs[1..][i - 1];
      }
    }
  }

  /** Any integer but zero is read as true. */
  lemma FlagIsNonZero(bs: seq<Byte>)
    requires |bs| == 4
    ensures ScalarOf(bs, KFlag) == Flag(bs != [0, 0, 0, 0])
  {
    ZeroBytes(bs);
    FromLittleEndianBound(bs);
    assert Pow256(4) == TWO32;
  }

  /** The value read, if any, and the stream left behind: an exception in the
      middle of a string leaves the count consumed. */
  function DecodeOne(stream: seq<Byte>, k: Kind, cap: nat): (Option<Value>, seq<Byte>) {
    match Take(stream, Width(k), cap)
    case None => (None, stream)
    case Some(bs) =>
      var rest := stream[Width(k)..];
      if k != KText then (Some(ScalarOf(bs, k)), rest)
      else
        var len := ScalarOf(bs, k).u32;
        match Take(rest, len, cap)
        case None => (None, rest)
        case Some(s) => (Some(Text(s)), rest[len..])
  }

  function DecodeAll(stream: seq<Byte>, kinds: seq<Kind>, cap: nat): Option<seq<Value>> {
    if kinds == [] then Some([]) else
    match DecodeOne(stream, kinds[0], cap)
    case (None, _) => None
    case (Some(v), rest) =>
      match DecodeAll(rest, kinds[1..], cap)
      case None => None
      case Some(vs) => Some([v] + vs)
  }

  // ---- Store then load ----------------------------------------------------

  /** What comes back: the value itself, with a string cut as it was stored. */
  function Canonical(v: Value): Value { if v.Text? then Text(Storable(v.s)) else v }

  predicate Fits(v: Value, cap: nat) { v.Text? ==> |Storable(v.s)| <= cap }
  predicate AllFit(vs: seq<Value>, cap: nat) { forall v :: v in vs ==> Fits(v, cap) }

  function KindsOf(vs: seq<Value>): seq<Kind> { seq(|vs|, i requires 0 <= i < |vs| => KindOf(vs[i])) }
  function CanonicalAll(vs: seq<Value>): seq<Value> { seq(|vs|, i requires 0 <= i < |vs| => Canonical(vs[i])) }

  lemma ScalarRoundTrip(v: Value)
    requires !v.Text?
    ensures |Encode(v)| == Width(KindOf(v)) && ScalarOf(Encode(v), KindOf(v)) == v
  {
    assert Pow256(1) == 256 && Pow256(2) == 0x1_0000 && Pow256(4) == TWO32;
    match v
    case Small(n) => assert FromLittleEndian([n]) == n;
    case Short(n) => LittleEndianRoundTrip(n, 2);
    case Long(n) => LittleEndianRoundTrip(n % TWO32, 4);
    case Word(n) => LittleEndianRoundTrip(n, 4);
    case Flag(b) => LittleEndianRoundTrip(if b then 1 else 0, 4);
  }

  lemma DecodeScalar(v: Value, tail: seq<Byte>, cap: nat)
    requires cap >= 4 && !v.Text?
    ensures DecodeOne(Encode(v) + tail, KindOf(v), cap) == (Some(v), tail)
  {
    ScalarRoundTrip(v);
    SplitConcat(Encode(v), tail);
  }

  lemma DecodeText(s: seq<Byte>, tail: seq<Byte>, cap: nat)
    requires cap >= 4
    ensures var r := DecodeOne(Encode(Text(s)) + tail, KText, cap);
            if |Storable(s)| <= cap then r == (Some(Text(Storable(s))), tail) else r.0.None?
  {
    var t := Storable(s);
    var count := LittleEndian(|t|, 4);
    assert count == Encode(Word(|t|));
    ScalarRoundTrip(Word(|t|));
    ConcatAssoc(count, t, tail);
    SplitConcat(count, t + tail);
    SplitConcat(t, tail);
  }

  lemma DecodeEncoded(v: Value, tail: seq<Byte>, cap: nat)
    requires cap >= 4
    ensures var r := DecodeOne(Encode(v) + tail, KindOf(v), cap);
            if Fits(v, cap) then r == (Some(Canonical(v)), tail) else r.0.None?
  {
    if v.Text? { DecodeText(v.s, tail, cap); } else { DecodeScalar(v, tail, cap); }
  }

  /** The round trip for every sequence of values: loading gives back the stored
      values exactly when every stored string fits the load buffer, and throws
      otherwise. */
  lemma {:induction false} DecodeAllEncoded(vs: seq<Value>, cap: nat)
    requires cap >= 4
    ensures DecodeAll(EncodeAll(vs), KindsOf(vs), cap) ==
              if AllFit(vs, cap) then Some(CanonicalAll(vs)) else None
  {
    if vs == [] {
      assert KindsOf(vs) == [] && CanonicalAll(vs) == [];
    } else {
      DecodeEncoded(vs[0], EncodeAll(vs[1..]), cap);
      DecodeAllEncoded(vs[1..], cap);
      FirstValue(vs, cap);
    }
  }

  lemma FirstValue(vs: seq<Value>, cap: nat)
    requires vs != []
    ensures KindsOf(vs)[0] == KindOf(vs[0]) && KindsOf(vs)[1..] == KindsOf(vs[1..])
    ensures CanonicalAll(vs) == [Canonical(vs[0])] + CanonicalAll(vs[1..])
    ensures AllFit(vs, cap) <==> Fits(vs[0], cap) && AllFit(vs[1..], cap)
  {
  }

  /** A value comes back unchanged unless it is a string that contains a NUL or
      whose length does not fit 32 bits. */
  lemma CanonicalIsSame(v: Value)
    ensures Canonical(v) == v <==> (v.Text? ==> 0 !in v.s && |v.s| < TWO32)
  {
  }

  predicate Intact(v: Value, cap: nat) { v.Text? ==> 0 !in v.s && |v.s| < TWO32 && |v.s| <= cap }

  lemma CanonicalAllIsSame(vs: seq<Value>)
    ensures CanonicalAll(vs) == vs <==> forall v :: v in vs ==> Canonical(v) == v
  {
  }

  /** The values themselves come back exactly when every string is free of NULs,
      has a 32-bit length and fits the load buffer. */
  lemma LoadsBackExactly(vs: seq<Value>, cap: nat)
    requires cap >= 4
    ensures var r := DecodeAll(EncodeAll(vs), KindsOf(vs), cap);
            && (r.None? <==> exists v :: v in vs && !Fits(v, cap))
            && (r == Some(vs) <==> forall v :: v in vs ==> Intact(v, cap))
  {
    DecodeAllEncoded(vs, cap);
    CanonicalAllIsSame(vs);
    forall v | v in vs ensures Intact(v, cap) <==> Fits(v, cap) && Canonical(v) == v { CanonicalIsSame(v); }
  }

  /** The count of a string of 2^31 bytes or more, behind the values before it, is
      on this stream. */
  ghost predicate HugeAt(start: seq<Byte>, vs: seq<Value>, k: nat, stream: seq<Byte>) {
    && k < |vs| && vs[k].Text? && |Storable(vs[k].s)| >= TWO31
    && start + EncodeAll(vs[..k]) + LittleEndian(|Storable(vs[k].s)|, 4) <= stream
  }

  lemma DecodeHugeCount(s: seq<Byte>, stream: seq<Byte>, cap: nat)
    requires 4 <= cap < TWO31 <= |Storable(s)| && LittleEndian(|Storable(s)|, 4) <= stream
    ensures DecodeOne(stream, KText, cap).0.None?
  {
    var n := |Storable(s)|;
    ScalarRoundTrip(Word(n));
    assert stream[..4] == LittleEndian(n, 4) == Encode(Word(n));
  }

  /** No load buffer takes such a string, whatever the stream holds behind its count. */
  lemma {:induction false} DecodeHuge(vs: seq<Value>, k: nat, stream: seq<Byte>, cap: nat)
    requires 4 <= cap < TWO31 && HugeAt([], vs, k, stream)
    ensures DecodeAll(stream, KindsOf(vs), cap).None?
  {
    var count := LittleEndian(|Storable(vs[k].s)|, 4);
    var head := EncodeAll(vs[..k]) + count;
    assert [] + EncodeAll(vs[..k]) == EncodeAll(vs[..k]);
    assert KindsOf(vs)[0] == KindOf(vs[0]);
    if k == 0 {
      assert head == count;
      DecodeHugeCount(vs[0].s, stream, cap);
    } else {
      var tail := stream[|Encode(vs[0])|..];
      HugeTail(vs, k, stream);
      DecodeEncoded(vs[0], tail, cap);
      FirstValue(vs, cap);
      DecodeHuge(vs[1..], k - 1, tail, cap);
    }
  }

  lemma HugeTail(vs: seq<Value>, k: nat, stream: seq<Byte>)
    requires k > 0 && HugeAt([], vs, k, stream)
    ensures var n := |Encode(vs[0])|;
            && n <= |stream| && stream == Encode(vs[0]) + stream[n..]
            && HugeAt([], vs[1..], k - 1, stream[n..])
  {
    var first, rest := Encode(vs[0]), EncodeAll(vs[1..][..k - 1]);
    var count := LittleEndian(|Storable(vs[k].s)|, 4);
    assert vs[..k][1..] == vs[1..][..k - 1];
    assert [] + EncodeAll(vs[..k]) == first + rest && [] + rest == rest;
    ConcatAssoc(first, rest, count);
    PrefixSplit(first, rest + count, stream);
  }

  lemma PrefixSplit(a: seq<Byte>, b: seq<Byte>, s: seq<Byte>)
    requires a + b <= s
    ensures |a| <= |s| && s == a + s[|a|..] && b <= s[|a|..]
  {
    assert s[..|a|] == (a + b)[..|a|];
    assert s[|a|..][..|b|] == (a + b)[|a|..];
  }

  // ---- The objects --------------------------------------------------------

  class File {
    var contents: seq<Byte>
    var pos: nat

    constructor ()
      ensures contents == [] && pos == 0
    {
      contents, pos := [], 0;
    }

    method Write(bs: seq<Byte>)
      modifies this
      ensures contents == old(contents) + bs && pos == old(pos)
    {
      contents := contents + bs;
    }

    method Read(n: nat) returns (bs: seq<Byte>)
      requires pos <= |contents|
      modifies this`pos
      ensures pos <= |contents|
      ensures |bs| == if n <= |contents| - old(pos) then n else |contents| - old(pos)
      ensures bs + contents[pos..] == old(contents[pos..])
    {
      var m := if n <= |contents| - pos then n else |contents| - pos;
      bs := contents[pos..pos + m];
      pos := pos + m;
    }

    method Rewind()
      modifies this`pos
      ensures pos == 0
    {
      pos := 0;
    }
  }

  class Archive {
    const storing: bool
    var file: File?
    var buf: array<Byte>
    var cur: nat
    var fill: nat

    ghost predicate Valid()
      reads this, buf, file
    {
      && buf.Length >= 128
      && cur <= buf.Length && fill <= buf.Length
      && (!storing ==> cur <= fill && buf.Length < TWO31)
      && (file != null ==> file.pos <= |file.contents|)
    }

    ghost function OnFile(): seq<Byte>
      reads this, file
    {
      if file == null then [] else file.contents
    }

    /** Store mode: what has been written so far, on file and still buffered. */
    ghost function Stored(): seq<Byte>
      requires Valid()
      reads this, buf, file
    {
      OnFile() + buf[..cur]
    }

    /** Load mode: what has not been read yet, buffered and still on file. */
    ghost function Unread(): seq<Byte>
      requires Valid() && !storing
      reads this, buf, file
    {
      buf[cur..fill] + if file == null then [] else file.contents[file.pos..]
    }

    constructor (f: File, storing: bool, bufSize: I32)
      requires f.pos <= |f.contents|
      ensures Valid() && file == f && this.storing == storing && fresh(buf)
      ensures buf.Length == if bufSize > 128 then bufSize else 128
      ensures storing ==> Stored() == f.contents
      ensures !storing ==> Unread() == f.contents[f.pos..]
    {
      this.storing := storing;
      file := f;
      buf := new Byte[if bufSize > 128 then bufSize else 128](i => 0);
      cur, fill := 0, 0;
    }

    /** The length written is cut to 32 bits, so the stream is unchanged exactly
        when less than 4 GiB is buffered. */
    method Flush()
      requires Valid()
      modifies this`cur, file
      ensures Valid()
      ensures if storing && file != null
              then cur == 0 && OnFile() == old(OnFile()) + old(buf[..cur % TWO32])
              else cur == old(cur) && OnFile() == old(OnFile())
      ensures storing && file != null ==> (Stored() == old(Stored()) <==> old(cur) < TWO32)
      ensures file != null ==> file.pos == old(file.pos)
    {
      if storing && cur > 0 && file != null {
        file.Write(buf[..cur % TWO32]);
        cur := 0;
      }
    }

    /** After `close()` the file holds everything that was written, exactly when less
        than 4 GiB was still buffered. */
    method Close()
      requires Valid()
      modifies this, file
      ensures Valid() && file == null
      ensures storing && old(file) != null ==>
                && old(file).pos == old(file.pos) && old(OnFile()) <= old(file).contents
                && (old(file).contents == old(Stored()) <==> old(cur) < TWO32)
    {
      Flush();
      file := null;
    }

    /** What the code demands of a write without a check: once the file is gone a
        full buffer can no longer be emptied. */
    ghost predicate Room(n: nat)
      reads this, buf
    {
      file != null || cur + n <= buf.Length || n > buf.Length
    }

    /** A write of `n` bytes does not meet the cut of `Flush`. */
    ghost predicate Uncut(n: nat)
      reads this, buf
    {
      file == null || cur < TWO32 || cur + n <= buf.Length
    }

    method EnsureWrite(n: nat)
      requires Valid() && storing && Room(n)
      modifies this, file
      ensures Valid() && file == old(file) && (buf == old(buf) || fresh(buf))
      ensures cur + n <= buf.Length && old(OnFile()) <= OnFile()
      ensures Stored() == old(Stored()) <==> old(Uncut(n))
      ensures |Stored()| <= |old(Stored())|
      ensures buf == old(buf) ==> buf[..] == old(buf[..])
      ensures buf != old(buf) ==> && n > old(buf.Length) && buf.Length == 2 * n
                                  && (file != null ==> cur == 0)
    {
      if cur + n > buf.Length {
        Flush();
        if n > buf.Length {
          var bytes := buf[..];
          buf := new Byte[n * 2](i => if 0 <= i < |bytes| then bytes[i] else 0);
          assert buf[..cur] == bytes[..cur];
        }
      }
    }

    /** The `memcpy` of a write. */
    method Copy(bs: seq<Byte>)
      requires Valid() && storing && cur + |bs| <= buf.Length
      modifies this`cur, buf
      ensures Valid() && buf[..cur] == old(buf[..cur]) + bs
    {
      ghost var c, before := cur, buf[..cur];
      forall i | 0 <= i < |bs| { buf[cur + i] := bs[i]; }
      cur := cur + |bs|;
      assert buf[..c] == before && buf[c..cur] == bs;
      assert buf[..cur] == buf[..c] + buf[c..cur];
    }

    /** Every write, raw or typed: the stream grows by exactly the bytes written,
        exactly when no flush of 4 GiB or more is needed. */
    method Write(bs: seq<Byte>)
      requires Valid() && storing && Room(|bs|)
      modifies this, buf, file
      ensures Valid() && file == old(file) && (buf == old(buf) || fresh(buf))
      ensures old(OnFile()) <= OnFile()
      ensures Stored() == old(Stored()) + bs <==> old(Uncut(|bs|))
      ensures old(cur) < TWO32 && buf.Length != old(buf.Length) && file != null ==> OnFile() == old(Stored())
      ensures buf.Length == if |bs| > old(buf.Length) then 2 * |bs| else old(buf.Length)
    {
      EnsureWrite(|bs|);
      ghost var before, made := buf[..cur], Stored();
      Copy(bs);
      ConcatAssoc(OnFile(), before, bs);
      SameTail(made, old(Stored()), bs);
    }

    /** A string of 2^31 bytes or more may grow the buffer beyond what one flush can
        write; its count is on file by then. */
    method WriteValue(v: Value)
      requires Valid() && storing && file != null
      modifies this, buf, file
      ensures Valid() && file == old(file) && (buf == old(buf) || fresh(buf))
      ensures old(OnFile()) <= OnFile() && buf.Length >= old(buf.Length)
      ensures old(buf.Length) < TWO32 ==> Stored() == old(Stored()) + Encode(v)
      ensures old(buf.Length) < TWO32 <= buf.Length ==>
                && v.Text? && |Storable(v.s)| >= TWO31
                && OnFile() == old(Stored()) + LittleEndian(|Storable(v.s)|, 4)
    {
      if v.Text? {
        var s := Storable(v.s);
        var count := LittleEndian(|s|, 4);
        Write(count);
        Write(s);
        ConcatAssoc(old(Stored()), count, s);
      } else {
        Write(Encode(v));
      }
    }

    /** The `memmove` of `fill_buffer`: the unread bytes go to the front. */
    method Compact()
      requires Valid() && !storing && file != null
      modifies this`cur, this`fill, buf
      ensures Valid() && cur == 0 && fill == old(fill) - old(cur) && buf[..fill] == old(buf[cur..fill])
    {
      var remaining := fill - cur;
      for i := 0 to remaining
        modifies buf
        invariant forall j :: 0 <= j < i ==> buf[j] == old(buf[cur + j])
        invariant forall j :: i <= j < buf.Length ==> buf[j] == old(buf[j])
      {
        buf[i] := buf[cur + i];
      }
      cur, fill := 0, remaining;
    }

    /** The bytes read go behind the ones that are left. */
    method Refill(bs: seq<Byte>)
      requires Valid() && !storing && cur == 0 && fill + |bs| <= buf.Length
      modifies this`fill, buf
      ensures Valid() && buf[..fill] == old(buf[..fill]) + bs
    {
      ghost var n, kept := fill, buf[..fill];
      forall i | 0 <= i < |bs| { buf[fill + i] := bs[i]; }
      fill := fill + |bs|;
      assert buf[..n] == kept && buf[n..fill] == bs;
      assert buf[..fill] == buf[..n] + buf[n..fill];
    }

    method FillBuffer()
      requires Valid() && !storing
      modifies this, buf, file
      ensures Valid() && file == old(file) && buf == old(buf) && Unread() == old(Unread())
      ensures file == null ==> cur == old(cur) && fill == old(fill)
      ensures file != null ==> cur == 0 && fill == if |Unread()| <= buf.Length then |Unread()| else buf.Length
    {
      if file == null { return; }
      Compact();
      ghost var kept := buf[..fill];
      var bs := file.Read((buf.Length - fill) % TWO32);
      Refill(bs);
      ConcatAssoc(kept, bs, file.contents[file.pos..]);
    }

    /** Hands out `n` buffered bytes. */
    method Consume(n: nat) returns (bs: seq<Byte>)
      requires Valid() && !storing && cur + n <= fill
      modifies this`cur
      ensures Valid() && n <= |old(Unread())| && bs == old(Unread())[..n] && Unread() == old(Unread())[n..]
    {
      SplitPrefix(buf[cur..fill], if file == null then [] else file.contents[file.pos..], n);
      bs := buf[cur..cur + n];
      assert buf[cur..fill][..n] == bs && buf[cur..fill][n..] == buf[cur + n..fill];
      cur := cur + n;
    }

    /** A read of `n` bytes succeeds exactly when the unread stream and the buffer
        both have room for it, and a failing read leaves the stream as it was. */
    method Read(n: nat) returns (r: Option<seq<Byte>>)
      requires Valid() && !storing
      modifies this, buf, file
      ensures Valid() && file == old(file) && buf == old(buf)
      ensures r == Take(old(Unread()), n, buf.Length)
      ensures Unread() == if r.Some? then old(Unread())[n..] else old(Unread())
    {
      if cur + n > fill {
        FillBuffer();
      }
      if cur + n > fill { return None; }
      var bs := Consume(n);
      return Some(bs);
    }

    method ReadValue(k: Kind) returns (r: Option<Value>)
      requires Valid() && !storing
      modifies this, buf, file
      ensures Valid() && file == old(file) && buf == old(buf)
      ensures (r, Unread()) == DecodeOne(old(Unread()), k, buf.Length)
    {
      var bs := Read(Width(k));
      if bs.None? { return None; }
      if k != KText { return Some(ScalarOf(bs.value, k)); }
      var s := Read(ScalarOf(bs.value, k).u32);
      if s.None? { return None; }
      return Some(Text(s.value));
    }

    /** Either everything is in the stream, or a string too long for any load buffer
        has its count on file. */
    method StoreAll(vs: seq<Value>)
      requires Valid() && storing && file != null && buf.Length < TWO32
      modifies this, buf, file
      ensures Valid() && file == old(file)
      ensures buf.Length < TWO32 ==> Stored() == old(Stored()) + EncodeAll(vs)
      ensures buf.Length >= TWO32 ==> exists k: nat :: HugeAt(old(Stored()), vs, k, OnFile())
    {
      ghost var start, huge := Stored(), 0;
      for i := 0 to |vs|
        invariant Valid() && file == old(file) && (buf == old(buf) || fresh(buf))
        invariant buf.Length < TWO32 ==> Stored() == start + EncodeAll(vs[..i])
        invariant buf.Length >= TWO32 ==> HugeAt(start, vs, huge, OnFile())
      {
        if buf.Length < TWO32 { huge := i; }
        WriteValue(vs[i]);
        EncodePrefix(vs, i, start);
      }
      assert vs[..|vs|] == vs;
    }

    /** Loads values of the given kinds; `None` is the end-of-stream exception. */
    method LoadAll(kinds: seq<Kind>) returns (r: Option<seq<Value>>)
      requires Valid() && !storing
      modifies this, buf, file
      ensures Valid() && r == DecodeAll(old(Unread()), kinds, old(buf).Length)
    {
      var vs: seq<Value> := [];
      assert kinds[0..] == kinds;
      PrependNone(DecodeAll(Unread(), kinds, buf.Length));
      for i := 0 to |kinds|
        invariant Valid() && file == old(file) && buf == old(buf)
        invariant DecodeAll(old(Unread()), kinds, buf.Length)
                  == Prepend(vs, DecodeAll(Unread(), kinds[i..], buf.Length))
      {
        var v := ReadValue(kinds[i]);
        assert kinds[i..][1..] == kinds[i + 1..];
        if v.None? { return None; }
        PrependOne(vs, v.value, DecodeAll(Unread(), kinds[i + 1..], buf.Length));
        vs := vs + [v.value];
      }
      assert kinds[|kinds|..] == [] && vs + [] == vs;
      return Some(vs);
    }
  }

  function Prepend(vs: seq<Value>, r: Option<seq<Value>>): Option<seq<Value>> {
    if r.None? then None else Some(vs + r.value)
  }

  lemma PrependNone(r: Option<seq<Value>>)
    ensures Prepend([], r) == r
  {
    if r.Some? { assert [] + r.value == r.value; }
  }

  lemma PrependOne(vs: seq<Value>, v: Value, r: Option<seq<Value>>)
    ensures Prepend(vs + [v], r) == Prepend(vs, Prepend([v], r))
  {
    if r.Some? { assert vs + [v] + r.value == vs + ([v] + r.value); }
  }

  lemma {:induction false} EncodeAllAppend(vs: seq<Value>, v: Value)
    ensures EncodeAll(vs + [v]) == EncodeAll(vs) + Encode(v)
  {
    if vs == [] {
      assert vs + [v] == [v] && [v][1..] == [];
      assert Encode(v) + [] == Encode(v) == [] + Encode(v);
    } else {
      assert (vs + [v])[1..] == vs[1..] + [v];
      EncodeAllAppend(vs[1..], v);
      ConcatAssoc(Encode(vs[0]), EncodeAll(vs[1..]), Encode(v));
    }
  }

  lemma EncodePrefix(vs: seq<Value>, i: nat, start: seq<Byte>)
    requires i < |vs|
    ensures start + EncodeAll(vs[..i]) + Encode(vs[i]) == start + EncodeAll(vs[..i + 1])
  {
    EncodeAllAppend(vs[..i], vs[i]);
    assert vs[..i + 1] == vs[..i] + [vs[i]];
    ConcatAssoc(start, EncodeAll(vs[..i]), Encode(vs[i]));
  }

  /** Everything stored is on this stream, or else the count of a string that fits
      no load buffer is. */
  ghost predicate StreamOf(vs: seq<Value>, stream: seq<Byte>) {
    stream == EncodeAll(vs) || exists k: nat :: HugeAt([], vs, k, stream)
  }

  /** Loading such a stream gives back the values exactly when every string is
      intact. */
  lemma StreamLoadsBack(vs: seq<Value>, stream: seq<Byte>, cap: nat)
    requires 4 <= cap < TWO31 && StreamOf(vs, stream)
    ensures var r := DecodeAll(stream, KindsOf(vs), cap);
            && (r.None? <==> exists v :: v in vs && !Fits(v, cap))
            && (r == Some(vs) <==> forall v :: v in vs ==> Intact(v, cap))
  {
    if stream == EncodeAll(vs) {
      LoadsBackExactly(vs, cap);
    } else {
      var k: nat :| HugeAt([], vs, k, stream);
      DecodeHuge(vs, k, stream, cap);
      HugeDoesNotFit(vs[k], cap);
      assert vs[k] in vs;
    }
  }

  lemma SameTail(a: seq<Byte>, b: seq<Byte>, c: seq<Byte>)
    ensures a + c == b + c <==> a == b
  {
    if a + c == b + c {
      SplitConcat(a, c);
      SplitConcat(b, c);
    }
  }

  lemma HugeDoesNotFit(v: Value, cap: nat)
    requires v.Text? && cap < |Storable(v.s)|
    ensures !Fits(v, cap) && !Intact(v, cap)
  {
  }

  lemma StreamAfterClose(vs: seq<Value>, onFile: seq<Byte>, stored: seq<Byte>, complete: bool, after: seq<Byte>)
    requires complete ==> stored == [] + EncodeAll(vs) && after == stored
    requires !complete ==> onFile <= after && exists k: nat :: HugeAt([], vs, k, onFile)
    ensures StreamOf(vs, after)
  {
    if complete {
      assert [] + EncodeAll(vs) == EncodeAll(vs);
    } else {
      var k: nat :| HugeAt([], vs, k, onFile);
      assert HugeAt([], vs, k, after);
    }
  }

  /** A new store archive on a new file, then `close()`. */
  method StoreFile(vs: seq<Value>, storeSize: I32) returns (f: File)
    ensures fresh(f) && f.pos == 0 && StreamOf(vs, f.contents)
  {
    f := new File();
    var out := new Archive(f, true, storeSize);
    assert out.Stored() == [];
    out.StoreAll(vs);
    ghost var onFile, stored := f.contents, out.Stored();
    ghost var complete := out.buf.Length < TWO32;
    out.Close();
    StreamAfterClose(vs, onFile, stored, complete, f.contents);
    f.Rewind();
  }

  /** Store, close, load, for any values and any two buffer sizes: the values come
      back unchanged exactly when every string is free of NULs, has a 32-bit
      length and fits the load buffer; a string that does not fit throws. A flush
      that is cut to 32 bits changes nothing of this. */
  method StoreThenLoad(vs: seq<Value>, storeSize: I32, loadSize: I32) returns (r: Option<seq<Value>>)
    ensures var cap := if loadSize > 128 then loadSize else 128;
            && (r.None? <==> exists v :: v in vs && !Fits(v, cap))
            && (r == Some(vs) <==> forall v :: v in vs ==> Intact(v, cap))
  {
    var f := StoreFile(vs, storeSize);
    var inn := new Archive(f, false, loadSize);
    assert inn.Unread() == f.contents;
    StreamLoadsBack(vs, f.contents, inn.buf.Length);
    r := inn.LoadAll(KindsOf(vs));
  }
}
