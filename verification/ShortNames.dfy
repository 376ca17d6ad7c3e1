/** 32-byte directory slots: the 8.3 short-name encoding, its decoder, and the round trip. */
module ShortNames {
  import opened Bytes

  const SLOT_SIZE: nat := 32
  const ATTR_ARCHIVE: byte := 0x20
  const ATTR_DIRECTORY: byte := 0x10
  const DELETED: byte := 0xE5

  type Slot = s: seq<byte> | |s| == 32 witness Zeros(32)

  /** A directory entry as `read_dir` reports it. */
  datatype DirEntry = DirEntry(name: Str, isDir: bool, cluster: u32, size: u32)

  const DOT_NAME: Str := [DOT]
  const DOT_DOT_NAME: Str := [DOT, DOT]

  // ---- Encoding ----

  /** Position of the last `b` in `s`, or -1 (`rfind`). */
  function LastIndex(s: Str, b: byte): (r: int)
    ensures -1 <= r < |s|
    ensures r >= 0 ==> s[r] == b
    ensures forall k :: r < k < |s| ==> s[k] != b
  {
    if s == [] then -1
    else if s[|s| - 1] == b then |s| - 1
    else LastIndex(s[..|s| - 1], b)
  }

  /** The name before the last dot and the extension after it; `.` and `..` have no extension. */
  function BaseName(name: Str): Str {
    if name == DOT_NAME || name == DOT_DOT_NAME || LastIndex(name, DOT) < 0 then name
    else name[..LastIndex(name, DOT)]
  }

  function Extension(name: Str): Str {
    if name == DOT_NAME || name == DOT_DOT_NAME || LastIndex(name, DOT) < 0 then []
    else name[LastIndex(name, DOT) + 1..]
  }

  /** `s` upper-cased, cut or space-padded to `n` bytes. */
  function Field(s: Str, n: nat): (r: seq<byte>)
    ensures |r| == n
    ensures forall i :: 0 <= i < n ==> r[i] == if i < |s| then UpperByte(s[i]) else SPACE
  {
    seq(n, i requires 0 <= i < n => if i < |s| then UpperByte(s[i]) else SPACE)
  }

  /** The slot `write_short_entry` produces. */
  function EncodeSlot(name: Str, attrs: byte, cluster: u32, size: u32): (r: Slot)
  {
    Field(BaseName(name), 8) + Field(Extension(name), 3) + [attrs] + Zeros(8)
    + Bytes16(cluster / 0x1_0000) + Zeros(4) + Bytes16(cluster % 0x1_0000) + Bytes32(size)
  }

  // ---- Decoding ----

  /** The UTF-8 encoding of the character with code `b` (`b as char` pushed to a `String`). */
  function Latin1(b: byte): Str {
    if b < 128 then [b] else [192 + b / 64, 128 + b % 64]
  }

  /** A byte above 127 becomes the two bytes of the character with that code. */
  lemma Latin1Means(b: byte)
    ensures Latin1(b) == if b < 128 then [b] else if b < 192 then [0xC2, b] else [0xC3, b - 64]
  {
  }

  /** The characters of a space-padded field. */
  function TakeField(s: seq<byte>): Str {
    if s == [] || s[0] == SPACE then [] else Latin1(s[0]) + TakeField(s[1..])
  }

  /** Name and extension joined with a dot, lower-cased. */
  function JoinName(base: Str, ext: Str): Str {
    Lower(if ext == [] then base else base + [DOT] + ext)
  }

  /** The name `decode_short_name` reads from a slot. */
  function NameOf(s: Slot): Str {
    JoinName(TakeField(s[0..8]), TakeField(s[8..11]))
  }

  /** The directory entry stored in a slot. */
  function Parse(s: Slot): DirEntry {
    DirEntry(NameOf(s), s[11] / 16 % 2 == 1, Word16(s, 20) * 0x1_0000 + Word16(s, 26), Word32(s, 28))
  }

  /** A slot with first byte zero ends the directory. */
  predicate IsEnd(s: Slot) {
    s[0] == 0
  }

  /** A slot that may be reused. */
  predicate IsDead(s: Slot) {
    s[0] == 0 || s[0] == DELETED
  }

  /** Deleted, long-name or volume-label slot. */
  predicate IsSkipped(s: Slot) {
    s[0] == DELETED || s[11] % 16 == 15 || s[11] / 8 % 2 == 1
  }

  /** A slot that `read_dir` reports if it gets there. */
  predicate IsVisible(s: Slot) {
    !IsEnd(s) && !IsSkipped(s) && NameOf(s) != DOT_NAME && NameOf(s) != DOT_DOT_NAME
  }

  // ---- Round trip ----

  predicate Ascii(name: Str) {
    forall i :: 0 <= i < |name| ==> name[i] < 128
  }

  /** The name fits 8.3: a short base, a short extension, no space, and no dot at the end. */
  predicate Fits83(name: Str) {
    && |BaseName(name)| <= 8
    && |Extension(name)| <= 3
    && SPACE !in BaseName(name) && SPACE !in Extension(name)
    && (LastIndex(name, DOT) >= 0 && Extension(name) == [] ==> name == DOT_NAME || name == DOT_DOT_NAME)
  }

  /** A name the writer can store and find again. */
  predicate ValidName(name: Str) {
    && Ascii(name) && Fits83(name)
    && name != [] && name[0] != 0 && name != DOT_NAME && name != DOT_DOT_NAME
  }

  lemma FieldTail(s: Str, n: nat)
    requires s != [] && n > 0
    ensures Field(s, n)[1..] == Field(s[1..], n - 1) && Field(s, n)[0] == UpperByte(s[0])
  {
  }

  lemma FieldStep(s: Str, n: nat)
    requires Ascii(s)
    ensures TakeField(Field(s, n))
         == if n == 0 || s == [] || s[0] == SPACE then []
            else [UpperByte(s[0])] + TakeField(Field(s[1..], n - 1))
  {
    if n > 0 {
      if s == [] {
        assert Field(s, n)[0] == SPACE;
      } else {
        FieldTail(s, n);
        assert s[0] < 128;
      }
    }
  }

  lemma LowerUpper(b: byte)
    ensures LowerByte(UpperByte(b)) == LowerByte(b)
  {
  }

  /** Decoding a padded field gives back the longest space-free prefix that fits. */
  lemma {:induction false} TakeFieldOf(s: Str, n: nat)
    requires Ascii(s)
    ensures var t := TakeField(Field(s, n));
            && |t| <= |s| && |t| <= n
            && (|t| == |s| <==> |s| <= n && SPACE !in s)
            && Lower(t) == Lower(s)[..|t|]
    decreases n
  {
    FieldStep(s, n);
    if n > 0 && s != [] && s[0] != SPACE {
      var rest := s[1..];
      assert SPACE in s <==> SPACE in rest;
      assert Ascii(rest);
      TakeFieldOf(rest, n - 1);
      var t := TakeField(Field(rest, n - 1));
      LowerConcat([UpperByte(s[0])], t);
      LowerConcat([s[0]], rest);
      assert [s[0]] + rest == s;
      LowerUpper(s[0]);
    }
  }

  lemma NameParts(name: Str)
    ensures name == if LastIndex(name, DOT) < 0 || name == DOT_NAME || name == DOT_DOT_NAME then BaseName(name)
                    else BaseName(name) + [DOT] + Extension(name)
  {
    if LastIndex(name, DOT) >= 0 {
      Pieces(name, LastIndex(name, DOT));
    }
  }

  lemma Pieces(name: Str, i: nat)
    requires i < |name|
    ensures name == name[..i] + [name[i]] + name[i + 1..]
  {
  }

  lemma SlotFields(name: Str, attrs: byte, cluster: u32, size: u32)
    ensures var s := EncodeSlot(name, attrs, cluster, size);
            s[0..8] == Field(BaseName(name), 8) && s[8..11] == Field(Extension(name), 3) && s[11] == attrs
  {
  }

  /** The 32 bytes of an encoded entry: eight of the name and three of the extension in upper case behind which
      spaces follow, the attributes, and the numbers with their low bytes first; everything else is zero. */
  lemma SlotMeans(name: Str, attrs: byte, cluster: u32, size: u32, i: nat)
    requires i < 32
    ensures var s := EncodeSlot(name, attrs, cluster, size);
            var base, ext := BaseName(name), Extension(name);
            && (i < 8 ==> s[i] == if i < |base| then UpperByte(base[i]) else 32)
            && (8 <= i < 11 ==> s[i] == if i - 8 < |ext| then UpperByte(ext[i - 8]) else 32)
            && (i < 11 ==> !(97 <= s[i] <= 122))
            && s[11] == attrs && (12 <= i < 20 || 22 <= i < 26 ==> s[i] == 0)
    ensures var s := EncodeSlot(name, attrs, cluster, size);
            && s[26] == cluster % 0x100 && s[27] == cluster / 0x100 % 0x100
            && s[20] == cluster / 0x1_0000 % 0x100 && s[21] == cluster / 0x100_0000
    ensures var s := EncodeSlot(name, attrs, cluster, size);
            && s[28] == size % 0x100 && s[29] == size / 0x100 % 0x100
            && s[30] == size / 0x1_0000 % 0x100 && s[31] == size / 0x100_0000
  {
    SlotText(name, attrs, cluster, size, i);
    ClusterBytesAt(name, attrs, cluster, size);
    LittleEndian(EncodeSlot(name, attrs, cluster, size), 28);
    SlotNumbers(name, attrs, cluster, size);
  }

  lemma SlotText(name: Str, attrs: byte, cluster: u32, size: u32, i: nat)
    requires i < 32
    ensures var s := EncodeSlot(name, attrs, cluster, size);
            && (i < 8 ==> s[i] == Field(BaseName(name), 8)[i])
                && (8 <= i < 11 ==> s[i] == Field(Extension(name), 3)[i - 8])
            && s[11] == attrs && (12 <= i < 20 || 22 <= i < 26 ==> s[i] == 0)
  {
    SlotFields(name, attrs, cluster, size);
    var s := EncodeSlot(name, attrs, cluster, size);
    assert i < 8 ==> s[i] == s[0..8][i];
    assert 8 <= i < 11 ==> s[i] == s[8..11][i - 8];
  }

  lemma ClusterBytesAt(name: Str, attrs: byte, cluster: u32, size: u32)
    ensures var s := EncodeSlot(name, attrs, cluster, size);
            && s[26] == cluster % 0x100 && s[27] == cluster / 0x100 % 0x100
            && s[20] == cluster / 0x1_0000 % 0x100 && s[21] == cluster / 0x100_0000
  {
    var s := EncodeSlot(name, attrs, cluster, size);
    assert s[26] as int + 0x100 * (s[27] as int) == cluster % 0x1_0000;
    assert s[20] as int + 0x100 * (s[21] as int) == cluster / 0x1_0000;
  }

  lemma LowerConcat(a: Str, b: Str)
    ensures Lower(a + b) == Lower(a) + Lower(b)
  {
  }

  /** Joining what the fields kept: exact when both parts fit, shorter otherwise. */
  lemma JoinDecoded(base: Str, ext: Str)
    requires Ascii(base) && Ascii(ext)
    ensures var decoded := JoinName(TakeField(Field(base, 8)), TakeField(Field(ext, 3)));
            if |base| <= 8 && |ext| <= 3 && SPACE !in base && SPACE !in ext then decoded == JoinName(base, ext)
            else |decoded| < |JoinName(base, ext)|
  {
    TakeFieldOf(base, 8);
    TakeFieldOf(ext, 3);
    var b, e := TakeField(Field(base, 8)), TakeField(Field(ext, 3));
    if |base| <= 8 && |ext| <= 3 && SPACE !in base && SPACE !in ext {
      assert Lower(b) == Lower(base) && Lower(e) == Lower(ext);
      if ext != [] {
        LowerConcat(b + [DOT], e);
        LowerConcat(b, [DOT]);
        LowerConcat(base + [DOT], ext);
        LowerConcat(base, [DOT]);
      }
    }
  }

  /** A slot whose name fields hold the encoding of `name`. */
  ghost predicate Holds(s: Slot, name: Str) {
    s[0..8] == Field(BaseName(name), 8) && s[8..11] == Field(Extension(name), 3)
  }

  /** A name is its parts joined, except that a final dot is lost. */
  lemma NameJoined(name: Str)
    ensures if LastIndex(name, DOT) >= 0 && Extension(name) == [] && name != DOT_NAME && name != DOT_DOT_NAME
            then |JoinName(BaseName(name), Extension(name))| < |name|
            else JoinName(BaseName(name), Extension(name)) == Lower(name)
  {
    NameParts(name);
  }

  lemma HeldName(s: Slot, name: Str)
    requires Ascii(name) && Holds(s, name)
    ensures NameOf(s) == Lower(name) <==> Fits83(name)
  {
    var base, ext := BaseName(name), Extension(name);
    assert NameOf(s) == JoinName(TakeField(Field(base, 8)), TakeField(Field(ext, 3)));
    assert Ascii(base) && Ascii(ext);
    JoinDecoded(base, ext);
    NameJoined(name);
    assert |JoinName(base, ext)| <= |name| == |Lower(name)|;
  }

  /** For every ASCII name, decoding what was encoded gives the lower-cased name exactly when the name
      fits 8.3; any other name is silently changed. */
  lemma NameRoundTrip(name: Str, attrs: byte, cluster: u32, size: u32)
    requires Ascii(name)
    ensures NameOf(EncodeSlot(name, attrs, cluster, size)) == Lower(name) <==> Fits83(name)
  {
    SlotFields(name, attrs, cluster, size);
    HeldName(EncodeSlot(name, attrs, cluster, size), name);
  }

  lemma NotLongName(attrs: byte)
    requires attrs / 8 % 2 == 0
    ensures attrs % 16 != 15
  {
  }

  lemma HeldFirstByte(s: Slot, name: Str)
    requires name != [] && 0 < name[0] < 128 && s[0..8] == Field(BaseName(name), 8)
    ensures s[0] != 0 && s[0] != DELETED
  {
  }

  lemma HeldEntry(s: Slot, name: Str)
    requires ValidName(name) && Holds(s, name) && s[11] / 8 % 2 == 0
    ensures NameOf(s) == Lower(name) && IsVisible(s) && !IsDead(s)
  {
    assert NameOf(s) == Lower(name) by { HeldName(s, name); }
    assert s[0] != 0 && s[0] != DELETED by { HeldFirstByte(s, name); }
    assert s[11] % 16 != 15 by { NotLongName(s[11]); }
    assert Lower(name) != DOT_NAME && Lower(name) != DOT_DOT_NAME by { LowerKeepsDots(name); }
  }

  /** Every field of an entry survives the round trip, and the slot is live. */
  lemma EntryRoundTrip(name: Str, attrs: byte, cluster: u32, size: u32)
    requires ValidName(name) && attrs / 8 % 2 == 0
    ensures var s := EncodeSlot(name, attrs, cluster, size);
            && Parse(s) == DirEntry(Lower(name), attrs / 16 % 2 == 1, cluster, size)
            && IsVisible(s) && !IsDead(s)
  {
    SlotFields(name, attrs, cluster, size);
    SlotNumbers(name, attrs, cluster, size);
    HeldEntry(EncodeSlot(name, attrs, cluster, size), name);
  }

  lemma LowerKeepsDots(name: Str)
    ensures Lower(name) == DOT_NAME ==> name == DOT_NAME
    ensures Lower(name) == DOT_DOT_NAME ==> name == DOT_DOT_NAME
  {
  }

  lemma SlotNumbers(name: Str, attrs: byte, cluster: u32, size: u32)
    ensures var s := EncodeSlot(name, attrs, cluster, size);
            Word16(s, 20) * 0x1_0000 + Word16(s, 26) == cluster && Word32(s, 28) == size
  {
  }

  /** Two valid names share an encoding exactly when they differ only in case. */
  lemma EncodingInjective(a: Str, b: Str)
    requires ValidName(a) && ValidName(b)
    ensures EncodeSlot(a, 0, 0, 0) == EncodeSlot(b, 0, 0, 0) <==> Lower(a) == Lower(b)
  {
    NameRoundTrip(a, 0, 0, 0);
    NameRoundTrip(b, 0, 0, 0);
    if Lower(a) == Lower(b) {
      SameCaseSameParts(a, b);
    }
  }

  lemma CaseOnly(x: byte, y: byte)
    requires LowerByte(x) == LowerByte(y)
    ensures UpperByte(x) == UpperByte(y) && (x == DOT <==> y == DOT)
  {
  }

  lemma SameLastDot(a: Str, b: Str)
    requires |a| == |b| && forall k :: 0 <= k < |a| ==> (a[k] == DOT <==> b[k] == DOT)
    ensures LastIndex(a, DOT) == LastIndex(b, DOT)
  {
  }

  lemma FieldSame(s: Str, t: Str, n: nat)
    requires |s| == |t| && forall k :: 0 <= k < |s| ==> UpperByte(s[k]) == UpperByte(t[k])
    ensures Field(s, n) == Field(t, n)
  {
  }

  lemma SameCaseSameParts(a: Str, b: Str)
    requires Lower(a) == Lower(b)
    ensures Field(BaseName(a), 8) == Field(BaseName(b), 8) && Field(Extension(a), 3) == Field(Extension(b), 3)
  {
    forall k | 0 <= k < |a|
      ensures UpperByte(a[k]) == UpperByte(b[k]) && (a[k] == DOT <==> b[k] == DOT)
    {
      assert Lower(a)[k] == Lower(b)[k];
      CaseOnly(a[k], b[k]);
    }
    assert |Lower(a)| == |Lower(b)|;
    SameLastDot(a, b);
    assert a == DOT_NAME || a == DOT_DOT_NAME <==> b == DOT_NAME || b == DOT_DOT_NAME by { SameDots(a, b); }
    FieldSame(BaseName(a), BaseName(b), 8);
    FieldSame(Extension(a), Extension(b), 3);
  }

  lemma SameDots(a: Str, b: Str)
    requires Lower(a) == Lower(b)
    ensures a == DOT_NAME || a == DOT_DOT_NAME <==> b == DOT_NAME || b == DOT_DOT_NAME
  {
  }

  /** Names that do not fit collide: both are stored as `abcdefgh`. */
  lemma LongNamesCollide()
    ensures var a: Str := [97, 98, 99, 100, 101, 102, 103, 104, 105];
            var b: Str := [97, 98, 99, 100, 101, 102, 103, 104, 106];
            a != b && Lower(a) != Lower(b) && !Fits83(a) && !Fits83(b)
            && EncodeSlot(a, 0, 0, 0) == EncodeSlot(b, 0, 0, 0)
  {
    var a: Str := [97, 98, 99, 100, 101, 102, 103, 104, 105];
    var b: Str := [97, 98, 99, 100, 101, 102, 103, 104, 106];
    assert LastIndex(a, DOT) == -1 && LastIndex(b, DOT) == -1;
    assert Lower(a)[8] == 105 && Lower(b)[8] == 106;
    assert Field(a, 8) == Field(b, 8);
  }

  // ---- The loops of the source ----

  /** `write_short_entry`: fill, upper-case and pad byte by byte, then store the numbers. */
  method WriteShortEntry(name: Str, attrs: byte, cluster: u32, size: u32) returns (slot: Slot)
    ensures slot == EncodeSlot(name, attrs, cluster, size)
  {
    var s := WriteName(name);
    assert s[12..20] == Zeros(8) && s[22..26] == Zeros(4);
    slot := s[..11] + [attrs] + s[12..20] + Bytes16(cluster / 0x1_0000) + s[22..26]
            + Bytes16(cluster % 0x1_0000) + Bytes32(size);
    assert s[..11] == s[..8] + s[8..11];
  }

  /** The name half of a fresh slot, with the special spelling of `.` and `..`. */
  method WriteName(name: Str) returns (s: seq<byte>)
    ensures |s| == 32 && s[..8] == Field(BaseName(name), 8) && s[8..11] == Field(Extension(name), 3)
    ensures forall k :: 11 <= k < 32 ==> s[k] == 0
  {
    s := WriteField(Zeros(32), 0, BaseName(name), 8);
    ghost var base := s;
    s := WriteField(s, 8, Extension(name), 3);
    assert s[..8] == base[..8];
    if name == DOT_NAME || name == DOT_DOT_NAME {
      s := WriteField(s, 0, [], 11);
      assert forall k :: 0 <= k < 11 ==> s[k] == s[0..11][k] == SPACE;
      s := s[0 := DOT];
      if name == DOT_DOT_NAME {
        s := s[1 := DOT];
      }
    }
  }

  /** Write `text`, upper-cased and space-padded, into `n` bytes from `at`. */
  method WriteField(s: seq<byte>, at: nat, text: Str, n: nat) returns (r: seq<byte>)
    requires at + n <= |s|
    ensures |r| == |s| && r[at..at + n] == Field(text, n)
    ensures forall k :: 0 <= k < |s| && !(at <= k < at + n) ==> r[k] == s[k]
  {
    r := s;
    for i := 0 to n
      invariant |r| == |s| && forall k :: 0 <= k < i ==> r[at + k] == Field(text, n)[k]
      invariant forall k :: 0 <= k < |s| && !(at <= k < at + i) ==> r[k] == s[k]
    {
      r := r[at + i := if i < |text| then UpperByte(text[i]) else SPACE];
    }
  }

  /** `decode_short_name`: copy both fields up to the first space, join, lower-case. */
  method DecodeShortName(entry: Slot) returns (name: Str)
    ensures name == NameOf(entry)
  {
    var base := DecodeField(entry[0..8]);
    var ext := DecodeField(entry[8..11]);
    if ext != [] {
      base := base + [DOT] + ext;
    }
    name := Lower(base);
  }

  method DecodeField(raw: seq<byte>) returns (text: Str)
    ensures text == TakeField(raw)
  {
    text := [];
    var i := 0;
    while i < |raw|
      invariant 0 <= i <= |raw| && text + TakeField(raw[i..]) == TakeField(raw)
    {
      if raw[i] == SPACE {
        break;
      }
      assert TakeField(raw[i..]) == Latin1(raw[i]) + TakeField(raw[i..][1..]) && raw[i..][1..] == raw[i + 1..];
      text := text + Latin1(raw[i]);
      i := i + 1;
    }
  }
}
