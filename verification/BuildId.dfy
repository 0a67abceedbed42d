/** The ELF note parser and library fingerprint of
    internal/discover/umdfingerprint.go. Notes are laid out as in the System V
    gABI, chapter 5, "Note Section". */
module BuildId {
  import opened Strings
  import opened Numbers

  type Byte = b: int | 0 <= b < 256

  datatype ByteOrder = LittleEndian | BigEndian

  const UINT64_LIMIT: int := 0x1_0000_0000_0000_0000
  const NT_GNU_BUILD_ID: nat := 3
  const GNU: seq<Byte> := [71, 78, 85]
  const MAX_NOTE_BYTES: nat := 64 * 1024

  function Uint32(order: ByteOrder, b: seq<Byte>): (n: nat)
    requires |b| == 4
    ensures n < UINT32_LIMIT
  {
    match order
    case LittleEndian => Word(b[0], b[1], b[2], b[3])
    case BigEndian => Word(b[3], b[2], b[1], b[0])
  }

  /** The number with these bytes, least significant first. */
  function Word(b0: int, b1: int, b2: int, b3: int): int {
    b0 + 0x100 * (b1 + 0x100 * (b2 + 0x100 * b3))
  }

  function PutUint32(order: ByteOrder, n: nat): (b: seq<Byte>)
    requires n < UINT32_LIMIT
    ensures |b| == 4 && Uint32(order, b) == n
  {
    var b0, b1, b2, b3 := n % 0x100, n / 0x100 % 0x100, n / 0x100 / 0x100 % 0x100, n / 0x100 / 0x100 / 0x100;
    match order
    case LittleEndian => [b0, b1, b2, b3]
    case BigEndian => [b3, b2, b1, b0]
  }

  lemma PutUint32Inverse(order: ByteOrder, b: seq<Byte>)
    requires |b| == 4
    ensures PutUint32(order, Uint32(order, b)) == b
  {
    var c := if order == LittleEndian then b else [b[3], b[2], b[1], b[0]];
    var n := Word(c[0], c[1], c[2], c[3]);
    assert n % 0x100 == c[0] && n / 0x100 == c[1] + 0x100 * (c[2] + 0x100 * (c[3] as int));
    assert n / 0x100 % 0x100 == c[1] && n / 0x100 / 0x100 == c[2] + 0x100 * (c[3] as int);
  }

  /** Round up to a multiple of 4 in uint64 arithmetic; clearing the two low bits
      subtracts the remainder. */
  function Align4(n: nat): nat {
    var m := (n + 3) % UINT64_LIMIT;
    m - m % 4
  }

  /** No 32-bit size overflows: the result is the least multiple of 4 not below it. */
  lemma Align4IsLeast(n: nat)
    requires n < UINT32_LIMIT
    ensures Align4(n) % 4 == 0 && n <= Align4(n) < UINT64_LIMIT
    ensures forall m :: n <= m && m % 4 == 0 ==> Align4(n) <= m
  {
  }

  /** The rounding breaks down exactly for the three largest uint64 values. */
  lemma Align4Overflows(n: nat)
    requires n <= 0xFFFF_FFFF_FFFF_FFFF
    ensures n <= Align4(n) <==> n <= 0xFFFF_FFFF_FFFF_FFFC
  {
  }

  /** One note with its padding; the padding bytes are arbitrary. */
  datatype Note = Note(name: seq<Byte>, kind: nat, desc: seq<Byte>, namePad: seq<Byte>, descPad: seq<Byte>)

  predicate WellFormed(note: Note) {
    && |note.name| < UINT32_LIMIT && |note.desc| < UINT32_LIMIT && note.kind < UINT32_LIMIT
    && |note.name| + |note.namePad| == Align4(|note.name|)
    && |note.desc| + |note.descPad| == Align4(|note.desc|)
  }

  function Header(order: ByteOrder, note: Note): (b: seq<Byte>)
    requires WellFormed(note)
    ensures |b| == 12
  {
    PutUint32(order, |note.name|) + PutUint32(order, |note.desc|) + PutUint32(order, note.kind)
  }

  function Encode(order: ByteOrder, note: Note): seq<Byte>
    requires WellFormed(note)
  {
    Header(order, note) + (note.name + note.namePad) + (note.desc + note.descPad)
  }

  function EncodeAll(order: ByteOrder, notes: seq<Note>): seq<Byte>
    requires forall n :: n in notes ==> WellFormed(n)
  {
    if notes == [] then [] else Encode(order, notes[0]) + EncodeAll(order, notes[1..])
  }

  /** The first complete note of the data and what follows it. */
  function Take(order: ByteOrder, data: seq<Byte>): (r: Option<(Note, seq<Byte>)>)
    ensures r.Some? ==> |r.value.1| < |data|
  {
    if |data| < 12 then None
    else
      var nameSize, descSize := Uint32(order, data[0..4]), Uint32(order, data[4..8]);
      hide Align4, Uint32;
      Align4IsLeast(nameSize);
      Align4IsLeast(descSize);
      var nameAligned, descAligned := Align4(nameSize), Align4(descSize);
      var rest := data[12..];
      if nameAligned > |rest| || descAligned > |rest| - nameAligned then None
      else
        var descPart := rest[nameAligned..];
        Some((Note(rest[..nameSize], Uint32(order, data[8..12]), descPart[..descSize],
                   rest[nameSize..nameAligned], descPart[descSize..descAligned]),
              descPart[descAligned..]))
  }

  /** The complete notes at the front of the data, and the bytes left over. */
  function Notes(order: ByteOrder, data: seq<Byte>): (seq<Note>, seq<Byte>)
    decreases |data|
  {
    match Take(order, data)
    case None => ([], data)
    case Some((note, rest)) =>
      var (notes, tail) := Notes(order, rest);
      ([note] + notes, tail)
  }

  /** Slices of a concatenation are its pieces. */
  lemma Pieces(a: seq<Byte>, b: seq<Byte>, c: seq<Byte>)
    ensures (a + b + c)[..|a|] == a
    ensures (a + b + c)[|a|..|a| + |b|] == b
    ensures (a + b + c)[|a| + |b|..] == c
  {
  }

  lemma HeaderFields(order: ByteOrder, note: Note, rest: seq<Byte>)
    requires WellFormed(note)
    ensures var data := Header(order, note) + rest;
      && Uint32(order, data[0..4]) == |note.name| && Uint32(order, data[4..8]) == |note.desc|
      && Uint32(order, data[8..12]) == note.kind && data[12..] == rest
  {
    hide PutUint32, Uint32;
    var data := Header(order, note) + rest;
    assert data[0..4] == PutUint32(order, |note.name|);
    assert data[4..8] == PutUint32(order, |note.desc|);
    assert data[8..12] == PutUint32(order, note.kind);
  }

  lemma TakeParts(order: ByteOrder, data: seq<Byte>, note: Note, tail: seq<Byte>)
    requires WellFormed(note) && |data| >= 12
    requires Uint32(order, data[0..4]) == |note.name| && Uint32(order, data[4..8]) == |note.desc|
    requires Uint32(order, data[8..12]) == note.kind
    requires data[12..] == note.name + note.namePad + (note.desc + note.descPad + tail)
    ensures Take(order, data) == Some((note, tail))
  {
    hide Uint32, Align4;
    var descPart := note.desc + note.descPad + tail;
    Pieces(note.name, note.namePad, descPart);
    Pieces(note.desc, note.descPad, tail);
  }

  lemma TakeOfEncoding(order: ByteOrder, note: Note, tail: seq<Byte>)
    requires WellFormed(note)
    ensures Take(order, Encode(order, note) + tail) == Some((note, tail))
  {
    hide PutUint32, Uint32, Header, Align4, Take;
    var rest := note.name + note.namePad + (note.desc + note.descPad + tail);
    var data := Header(order, note) + rest;
    assert Encode(order, note) + tail == data;
    HeaderFields(order, note, rest);
    TakeParts(order, data, note, tail);
  }

  lemma EncodingOfTake(order: ByteOrder, data: seq<Byte>)
    requires Take(order, data).Some?
    ensures WellFormed(Take(order, data).value.0)
    ensures data == Encode(order, Take(order, data).value.0) + Take(order, data).value.1
  {
    hide PutUint32, Uint32, Header, Align4;
    var (note, tail) := Take(order, data).value;
    Align4IsLeast(Uint32(order, data[0..4]));
    Align4IsLeast(Uint32(order, data[4..8]));
    HeaderOfFields(order, data, note);
    Rejoin(data[12..], |note.name|, Align4(|note.name|));
    Rejoin(data[12..][Align4(|note.name|)..], |note.desc|, Align4(|note.desc|));
    assert data == data[..12] + data[12..];
  }

  lemma Rejoin(b: seq<Byte>, i: nat, j: nat)
    requires i <= j <= |b|
    ensures b[..i] + b[i..j] + b[j..] == b
  {
  }

  lemma HeaderOfFields(order: ByteOrder, data: seq<Byte>, note: Note)
    requires |data| >= 12 && WellFormed(note)
    requires |note.name| == Uint32(order, data[0..4]) && |note.desc| == Uint32(order, data[4..8])
    requires note.kind == Uint32(order, data[8..12])
    ensures Header(order, note) == data[..12]
  {
    hide PutUint32, Uint32, Align4;
    PutUint32Inverse(order, data[0..4]);
    PutUint32Inverse(order, data[4..8]);
    PutUint32Inverse(order, data[8..12]);
    assert data[..12] == data[0..4] + data[4..8] + data[8..12];
  }

  /** Every concatenation of well-formed notes is read back note by note, up to
      bytes that hold no further complete note. */
  lemma {:induction false} NotesOfEncoding(order: ByteOrder, notes: seq<Note>, tail: seq<Byte>)
    requires forall n :: n in notes ==> WellFormed(n)
    requires Take(order, tail).None?
    ensures Notes(order, EncodeAll(order, notes) + tail) == (notes, tail)
  {
    hide Take, Encode;
    if notes == [] {
      assert EncodeAll(order, notes) + tail == tail;
    } else {
      var rest := EncodeAll(order, notes[1..]) + tail;
      assert EncodeAll(order, notes) + tail == Encode(order, notes[0]) + rest;
      TakeOfEncoding(order, notes[0], rest);
      NotesOfEncoding(order, notes[1..], tail);
      assert notes == [notes[0]] + notes[1..];
    }
  }

  /** Conversely, every byte string whatever is such a concatenation. */
  lemma {:induction false} NotesCover(order: ByteOrder, data: seq<Byte>)
    ensures var (notes, tail) := Notes(order, data);
      && (forall n :: n in notes ==> WellFormed(n))
      && data == EncodeAll(order, notes) + tail
      && Take(order, tail).None?
    decreases |data|
  {
    hide Encode, Take;
    if Take(order, data).Some? {
      var (note, rest) := Take(order, data).value;
      EncodingOfTake(order, data);
      NotesCover(order, rest);
      var (notes, tail) := Notes(order, rest);
      assert ([note] + notes)[1..] == notes;
      assert Encode(order, note) + (EncodeAll(order, notes) + tail)
        == Encode(order, note) + EncodeAll(order, notes) + tail;
    } else {
      assert EncodeAll(order, []) + data == data;
    }
  }

  function TrimRightNul(b: seq<Byte>): seq<Byte> {
    if b != [] && b[|b| - 1] == 0 then TrimRightNul(b[..|b| - 1]) else b
  }

  predicate IsBuildId(note: Note) {
    note.kind == NT_GNU_BUILD_ID && TrimRightNul(note.name) == GNU && |note.desc| > 0
  }

  lemma {:induction false} TrimRightNulCuts(b: seq<Byte>)
    ensures var t := TrimRightNul(b);
      && t <= b && (t != [] ==> t[|t| - 1] != 0)
      && forall i :: |t| <= i < |b| ==> b[i] == 0
  {
    if b != [] && b[|b| - 1] == 0 {
      TrimRightNulCuts(b[..|b| - 1]);
    }
  }

  /** A build id is a non-empty note of type 3 whose owner is "GNU" and any number
      of NUL bytes. */
  lemma IsBuildIdMeans(note: Note)
    ensures IsBuildId(note) <==>
      && note.kind == 3 && note.desc != []
      && |note.name| >= 3 && note.name[0] == 'G' as int && note.name[1] == 'N' as int && note.name[2] == 'U' as int
      && forall i :: 3 <= i < |note.name| ==> note.name[i] == 0
  {
    TrimRightNulCuts(note.name);
    var t := TrimRightNul(note.name);
    if |note.name| >= 3 && note.name[..3] == GNU && |t| != 3 {
      assert |t| < 3 ==> note.name[2] == 0;
      assert |t| > 3 ==> t[|t| - 1] == note.name[|t| - 1];
    }
  }

  function HexDigit(d: nat): (c: char)
    requires d < 16
    ensures d == if c <= '9' then c as int - '0' as int else c as int - 'a' as int + 10
  {
    if d < 10 then '0' + d as char else 'a' + (d - 10) as char
  }

  function Hex(b: seq<Byte>): (s: string)
    ensures |s| == 2 * |b|
  {
    if b == [] then "" else [HexDigit(b[0] / 16), HexDigit(b[0] % 16)] + Hex(b[1..])
  }

  lemma {:induction false} HexInjective(a: seq<Byte>, b: seq<Byte>)
    requires Hex(a) == Hex(b)
    ensures a == b
  {
    if a != [] {
      assert |b| == |a|;
      assert Hex(a)[0] == Hex(b)[0] && Hex(a)[1] == Hex(b)[1];
      assert a[0] == 16 * (a[0] / 16) + a[0] % 16 && b[0] == 16 * (b[0] / 16) + b[0] % 16;
      assert Hex(a)[2..] == Hex(a[1..]) && Hex(b)[2..] == Hex(b[1..]);
      HexInjective(a[1..], b[1..]);
      assert a == [a[0]] + a[1..] && b == [b[0]] + b[1..];
    }
  }

  /** Two digits a byte, the high one first. */
  lemma {:induction false} HexSpells(b: seq<Byte>, i: nat)
    requires i < |b|
    ensures Hex(b)[2 * i] == "0123456789abcdef"[b[i] / 16]
    ensures Hex(b)[2 * i + 1] == "0123456789abcdef"[b[i] % 16]
  {
    if i > 0 {
      HexSpells(b[1..], i - 1);
      assert Hex(b)[2..] == Hex(b[1..]);
      assert Hex(b)[2 * i] == Hex(b)[2..][2 * (i - 1)];
      assert Hex(b)[2 * i + 1] == Hex(b)[2..][2 * (i - 1) + 1];
    }
  }

  const NO_BUILD_ID := "no usable .note.gnu.build-id note"

  /** The answer for a list of notes: the first usable build id. */
  function BuildIdOf(notes: seq<Note>): (r: Result<string>)
    ensures r.Ok? ==> exists i :: 0 <= i < |notes| && IsBuildId(notes[i]) && r == Ok(Hex(notes[i].desc))
                        && forall j :: 0 <= j < i ==> !IsBuildId(notes[j])
    ensures r.Err? ==> r.error == NO_BUILD_ID && forall n :: n in notes ==> !IsBuildId(n)
  {
    if notes == [] then Err(NO_BUILD_ID)
    else if IsBuildId(notes[0]) then Ok(Hex(notes[0].desc))
    else BuildIdOf(notes[1..])
  }

  /** The section walk, on arbitrary bytes. */
  method ParseBuildIdNote(section: seq<Byte>, order: ByteOrder) returns (r: Result<string>)
    ensures r == BuildIdOf(Notes(order, section).0)
  {
    hide Uint32, TrimRightNul, Hex, Align4;
    var data := section;
    while |data| >= 12
      invariant BuildIdOf(Notes(order, section).0) == BuildIdOf(Notes(order, data).0)
      decreases |data|
    {
      var nameSize := Uint32(order, data[0..4]);
      var descSize := Uint32(order, data[4..8]);
      var kind := Uint32(order, data[8..12]);
      var rest := data[12..];

      Align4IsLeast(nameSize);
      var nameAligned := Align4(nameSize);
      if nameAligned > |rest| {
        break;
      }
      var name := rest[..nameSize];
      rest := rest[nameAligned..];

      Align4IsLeast(descSize);
      var descAligned := Align4(descSize);
      if descAligned > |rest| {
        break;
      }
      var desc := rest[..descSize];

      ghost var note := Take(order, data).value.0;
      ghost var notes := Notes(order, rest[descAligned..]).0;
      assert Notes(order, data).0 == [note] + notes && ([note] + notes)[1..] == notes;
      if kind == NT_GNU_BUILD_ID && TrimRightNul(name) == GNU && descSize > 0 {
        return Ok(Hex(desc));
      }
      data := rest[descAligned..];
    }
    return Err(NO_BUILD_ID);
  }

  /** The section walk finds the first usable build id of any list of notes. */
  lemma ParseFindsFirst(order: ByteOrder, notes: seq<Note>, tail: seq<Byte>)
    requires forall n :: n in notes ==> WellFormed(n)
    requires Take(order, tail).None?
    ensures BuildIdOf(Notes(order, EncodeAll(order, notes) + tail).0) == BuildIdOf(notes)
  {
    NotesOfEncoding(order, notes, tail);
  }

  /** A section with a GNU build-id note is answered with its descriptor in hex,
      whatever other notes come before and whatever comes after. */
  lemma ParseAnswersDescriptor(order: ByteOrder, before: seq<Note>, note: Note, after: seq<Note>, tail: seq<Byte>)
    requires forall n :: n in before + [note] + after ==> WellFormed(n)
    requires Take(order, tail).None?
    requires note.kind == 3 && note.desc != [] && |note.name| >= 3 && note.name[..3] == [71, 78, 85]
    requires forall i :: 3 <= i < |note.name| ==> note.name[i] == 0
    requires forall n :: n in before ==> n.kind != 3 || n.desc == [] || |n.name| < 3 || n.name[..3] != [71, 78, 85]
    ensures BuildIdOf(Notes(order, EncodeAll(order, before + [note] + after) + tail).0) == Ok(Hex(note.desc))
  {
    hide EncodeAll, Take, Notes, IsBuildId, Hex, WellFormed;
    var notes := before + [note] + after;
    ParseFindsFirst(order, notes, tail);
    IsBuildIdMeans(note);
    assert note.name[..3][0] == 71 && note.name[..3][1] == 78 && note.name[..3][2] == 85;
    forall n | n in before
      ensures !IsBuildId(n)
    {
      IsBuildIdMeans(n);
      assert |n.name| >= 3 && n.name[0] == 71 && n.name[1] == 78 && n.name[2] == 85 ==> n.name[..3] == [71, 78, 85];
    }
    FirstOf(before, note, after);
  }

  lemma {:induction false} FirstOf(before: seq<Note>, note: Note, after: seq<Note>)
    requires IsBuildId(note) && forall n :: n in before ==> !IsBuildId(n)
    ensures BuildIdOf(before + [note] + after) == Ok(Hex(note.desc))
  {
    hide IsBuildId, Hex;
    if before != [] {
      assert (before + [note] + after)[1..] == before[1..] + [note] + after;
      FirstOf(before[1..], note, after);
    }
  }

  /** The `.note.gnu.build-id` section as the ELF reader presents it; `data` is
      None when the section cannot be read. */
  datatype NoteSection = NoSection | Section(compressed: bool, size: nat, data: Option<seq<Byte>>)

  /** What the probe sees of one library file: its ELF image if it parses, and
      size and mtime if stat works. */
  datatype LibraryFile = LibraryFile(
    image: Option<(ByteOrder, NoteSection)>, stat: Option<(nat, int)>)

  function ReadBuildId(file: LibraryFile): Result<string> {
    match file.image
    case None => Err("elf")
    case Some((_, NoSection)) => Err(NO_BUILD_ID)
    case Some((order, Section(compressed, size, data))) =>
      if compressed || size > MAX_NOTE_BYTES then Err(NO_BUILD_ID)
      else
        match data
        case None => Err("read")
        case Some(bytes) => BuildIdOf(Notes(order, bytes).0)
  }

  function Fingerprint(file: LibraryFile): Result<string> {
    match ReadBuildId(file)
    case Ok(id) =>
      if id != "" then Ok("build-id:" + id) else MetaFingerprint(file.stat)
    case Err(_) => MetaFingerprint(file.stat)
  }

  function MetaFingerprint(stat: Option<(nat, int)>): Result<string> {
    match stat
    case None => Err("stat")
    case Some((size, mtime)) => Ok("size:" + Decimal(size) + ",mtime:" + Decimal(mtime))
  }

  /** What identifies a library build. */
  datatype Identity = ByContent(id: seq<Byte>) | ByMetadata(size: nat, mtime: int) | Unknown

  /** The first usable build-id descriptor, if the section is usable at all. */
  ghost function Descriptor(file: LibraryFile): Option<seq<Byte>> {
    match file.image
    case Some((order, Section(false, size, Some(bytes)))) =>
      if size <= 65536 then FirstDescriptor(Notes(order, bytes).0) else None
    case _ => None
  }

  ghost function FirstDescriptor(notes: seq<Note>): Option<seq<Byte>> {
    if notes == [] then None
    else if IsBuildId(notes[0]) then Some(notes[0].desc)
    else FirstDescriptor(notes[1..])
  }

  ghost function IdentityOf(file: LibraryFile): Identity {
    match Descriptor(file)
    case Some(id) => ByContent(id)
    case None =>
      match file.stat
      case Some((size, mtime)) => ByMetadata(size, mtime)
      case None => Unknown
  }

  lemma {:induction false} DescriptorPrinted(notes: seq<Note>)
    ensures BuildIdOf(notes) ==
      match FirstDescriptor(notes) case Some(id) => Ok(Hex(id)) case None => Err(NO_BUILD_ID)
    ensures FirstDescriptor(notes).Some? ==> |FirstDescriptor(notes).value| > 0
  {
    if notes != [] {
      DescriptorPrinted(notes[1..]);
    }
  }

  lemma FingerprintText(file: LibraryFile)
    ensures Fingerprint(file) ==
      match IdentityOf(file)
      case ByContent(id) => Ok("build-id:" + Hex(id))
      case ByMetadata(size, mtime) => Ok("size:" + Decimal(size) + ",mtime:" + Decimal(mtime))
      case Unknown => Err("stat")
  {
    match file.image
    case Some((order, Section(_, _, Some(bytes)))) => DescriptorPrinted(Notes(order, bytes).0);
    case _ =>
  }

  lemma MetadataInjective(size: nat, mtime: int, size': nat, mtime': int)
    requires "size:" + Decimal(size) + ",mtime:" + Decimal(mtime)
          == "size:" + Decimal(size') + ",mtime:" + Decimal(mtime')
    ensures size == size' && mtime == mtime'
  {
    hide Decimal, Split;
    MetadataParts(Decimal(size), Decimal(mtime));
    MetadataParts(Decimal(size'), Decimal(mtime'));
    DecimalChars(size);
    DecimalChars(mtime);
    DecimalChars(size');
    DecimalChars(mtime');
    Cut("size:", Decimal(size), Decimal(size'));
    Cut("mtime:", Decimal(mtime), Decimal(mtime'));
    DecimalInjective(size, size');
    DecimalInjective(mtime, mtime');
  }

  lemma Cut(prefix: string, a: string, b: string)
    requires prefix + a == prefix + b
    ensures a == b
  {
    assert (prefix + a)[|prefix|..] == a && (prefix + b)[|prefix|..] == b;
  }

  /** A comma-free pair of texts can be read back from the fingerprint. */
  lemma MetadataParts(size: string, mtime: string)
    ensures var text := "size:" + size + ",mtime:" + mtime;
      ',' !in size && ',' !in mtime ==>
        |Split(text, ',')| == 2 && "size:" + size == Split(text, ',')[0] && "mtime:" + mtime == Split(text, ',')[1]
  {
    hide Split;
    var a, b := "size:" + size, "mtime:" + mtime;
    assert "size:" + size + ",mtime:" + mtime == a + [','] + b;
    SplitConcat(a, b, ',');
    if ',' !in size && ',' !in mtime {
      SplitAtom(a, ',');
      SplitAtom(b, ',');
    }
  }

  /** Two readable libraries have the same fingerprint exactly when they are the
      same build: same build id, or, where neither has one, same size and mtime.
      A fingerprint is never empty. */
  lemma FingerprintIdentifies(file: LibraryFile, file': LibraryFile)
    requires Fingerprint(file).Ok? && Fingerprint(file').Ok?
    ensures Fingerprint(file) == Fingerprint(file') <==> IdentityOf(file) == IdentityOf(file')
    ensures Fingerprint(file).value != ""
  {
    hide Decimal, Hex, Descriptor;
    FingerprintText(file);
    FingerprintText(file');
    var f, f' := Fingerprint(file).value, Fingerprint(file').value;
    assert (f[0] == 'b') == IdentityOf(file).ByContent? && (f'[0] == 'b') == IdentityOf(file').ByContent?;
    if f == f' {
      match (IdentityOf(file), IdentityOf(file'))
      case (ByContent(id), ByContent(id')) =>
        Cut("build-id:", Hex(id), Hex(id'));
        HexInjective(id, id');
      case (ByMetadata(size, mtime), ByMetadata(size', mtime')) =>
        MetadataInjective(size, mtime, size', mtime');
      case _ =>
    }
  }
}
