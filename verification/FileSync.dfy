/**
 adb file sync: the bytes a client sends to push, stat or pull files, and the server's command loop.
 Disk failures are inputs; the connection itself stays up.
 */
module FileSync {
  import opened CText
  import opened Octets

  const ID_STAT: Word := 0x5441_5453
  const ID_SEND: Word := 0x444E_4553
  const ID_RECV: Word := 0x5643_4552
  const ID_DATA: Word := 0x4154_4144
  const ID_DONE: Word := 0x454E_4F44
  const ID_OKAY: Word := 0x5941_4B4F
  const ID_FAIL: Word := 0x4C49_4146
  const ID_QUIT: Word := 0x5449_5551

  const SYNC_DATA_MAX: nat := 0x1_0000
  const MAX_NAME: nat := 1024
  const COMMA: Byte := 44

  type Path = Bytes

  datatype File = File(data: Bytes, mtime: Word, mode: nat)

  type Files = map<Path, File>

  /**
   What a disk does during one command: whether the file opens, which write fails, the offset at which a read
   fails, how many bytes each read returns, and the text of errno.
   */
  datatype Disk = Disk(opens: bool, failsAt: Option<nat>, readFails: Option<nat>, pieces: seq<nat>, reason: Bytes)

  /** A read of a file fails before its end has been seen. */
  predicate ReadFails(disk: Disk, data: Bytes) {
    disk.readFails.Some? && disk.readFails.value <= |data|
  }

  /** The bytes that reads return before the end or the failure. */
  function BytesRead(disk: Disk, data: Bytes): Bytes {
    if ReadFails(disk, data) then data[..disk.readFails.value] else data
  }

  /** errno texts are short. */
  predicate DiskOk(d: Disk) {
    |d.reason| < WORD_SIZE
  }

  // ---- frames ----

  /** The two words at the head of every message. */
  function Frame(id: Word, size: Word): (b: Bytes)
    ensures |b| == 8
  {
    Le32(id) + Le32(size)
  }

  function FrameId(s: Bytes): Word
    requires |s| >= 8
  {
    FromLe32(s[0..4])
  }

  function FrameSize(s: Bytes): Word
    requires |s| >= 8
  {
    FromLe32(s[4..8])
  }

  lemma FrameRoundTrip(id: Word, size: Word, rest: Bytes)
    ensures var s := Frame(id, size) + rest;
            FrameId(s) == id && FrameSize(s) == size && s[8..] == rest
  {
    hide Le32, FromLe32;
    var s := Frame(id, size) + rest;
    assert s[0..4] == Le32(id) && s[4..8] == Le32(size);
    WordRoundTrip(id);
    WordRoundTrip(size);
  }

  /** fail_message */
  function FailReply(reason: Bytes): Bytes
    requires |reason| < WORD_SIZE
  {
    Frame(ID_FAIL, |reason|) + reason
  }

  const OKAY_REPLY: Bytes := Frame(ID_OKAY, 0)

  // ---- names and modes ----

  /** "%d" of a natural number */
  function Decimal(n: nat): Bytes {
    if n < 10 then [48 + n] else Decimal(n / 10) + [48 + n % 10]
  }

  /** The value of a digit in base 8, 10 or 16. */
  function Digit(c: Byte, base: nat): Option<nat> {
    if 48 <= c < 56 || (base >= 10 && 56 <= c <= 57) then Some(c - 48)
    else if base == 16 && 65 <= c <= 70 then Some(c - 55)
    else if base == 16 && 97 <= c <= 102 then Some(c - 87)
    else None
  }

  function DigitsValue(s: Bytes, base: nat, acc: nat): nat
    decreases |s|
  {
    if s == [] || Digit(s[0], base).None? then acc
    else DigitsValue(s[1..], base, acc * base + Digit(s[0], base).value)
  }

  /** strtoul with base 0 on a text without blanks and sign */
  function StrToUl(s: Bytes): nat {
    if s == [] || s[0] != 48 then DigitsValue(s, 10, 0)
    else if |s| > 1 && (s[1] == 120 || s[1] == 88) then DigitsValue(s[2..], 16, 0)
    else DigitsValue(s, 8, 0)
  }

  /** strrchr for a comma */
  function LastComma(s: Bytes): (r: Option<nat>)
    ensures r.Some? ==> r.value < |s| && s[r.value] == COMMA
    ensures forall k :: 0 <= k < |s| && (r.Some? ==> r.value < k) ==> s[k] != COMMA
  {
    if s == [] then None
    else if s[|s| - 1] == COMMA then Some(|s| - 1)
    else LastComma(s[..|s| - 1])
  }

  /** The path and mode suffix that sync_send writes. */
  function NameWithMode(path: Path, mode: nat): Bytes {
    path + [COMMA] + Decimal(mode)
  }

  /** do_send takes the name apart at its last comma; without one, or for a number out of range, the mode is 0644. */
  function SplitName(name: Bytes): (Path, nat) {
    match LastComma(name)
    case Some(k) =>
      var mode := StrToUl(name[k + 1..]);
      (name[..k], if mode < WORD_SIZE then mode else 420)
    case None => (name, 420)
  }

  predicate IsLink(mode: nat) {
    mode / 4096 % 16 == 10
  }

  predicate IsRegular(mode: nat) {
    mode / 4096 % 16 == 8
  }

  /** The permission bits the file gets: those of the user are copied to group and others. */
  function Permissions(mode: nat): nat {
    var u, g, o := mode / 64 % 8, mode / 8 % 8, mode % 8;
    u * 64 + Or(g, u) * 8 + Or(o, Or(g, u))
  }

  function Or(a: nat, b: nat): nat {
    (if a / 4 % 2 == 1 || b / 4 % 2 == 1 then 4 else 0)
    + (if a / 2 % 2 == 1 || b / 2 % 2 == 1 then 2 else 0)
    + (if a % 2 == 1 || b % 2 == 1 then 1 else 0)
  }

  /** A bit of a mode, named by its value. */
  predicate Has(mode: nat, bit: nat)
    requires bit > 0
  {
    mode / bit % 2 == 1
  }

  /** Read, write and execute, of user, group and others. */
  predicate Grants(p: nat, mode: nat, bit: nat)
    requires bit > 0
  {
    && (Has(p, 64 * bit) <==> Has(mode, 64 * bit))
    && (Has(p, 8 * bit) <==> Has(mode, 64 * bit) || Has(mode, 8 * bit))
    && (Has(p, bit) <==> Has(mode, 64 * bit) || Has(mode, 8 * bit) || Has(mode, bit))
  }

  /** What the user may do the group may, and what the group may do all others may; nothing else is added. */
  predicate Widened(p: nat, mode: nat) {
    p < 0x200 && Grants(p, mode, 4) && Grants(p, mode, 2) && Grants(p, mode, 1)
  }

  lemma Quotient(m: nat, r: nat)
    ensures (2 * m + r) / 2 == m + r / 2 && (4 * m + r) / 4 == m + r / 4
    ensures (8 * m + r) / 8 == m + r / 8 && (64 * m + r) / 64 == m + r / 64
  {
  }

  /** The three bits of one octal digit. */
  lemma LastDigit(q: nat, bit: nat)
    requires bit in {4, 2, 1}
    ensures Has(q, bit) <==> Has(q % 8, bit)
  {
    var m, d := q / 8, q % 8;
    if bit == 4 {
      Quotient(2 * m, d);
      Quotient(m, d / 4);
    } else {
      Quotient(4 * m, d);
      Quotient(2 * m, d / 2);
    }
  }

  lemma ShiftBit(mode: nat, bit: nat)
    requires bit in {4, 2, 1}
    ensures Has(mode, 64 * bit) <==> Has(mode / 64, bit)
    ensures Has(mode, 8 * bit) <==> Has(mode / 8, bit)
  {
    if bit == 4 {
      assert mode / 256 == mode / 64 / 4 && mode / 32 == mode / 8 / 4;
    } else if bit == 2 {
      assert mode / 128 == mode / 64 / 2 && mode / 16 == mode / 8 / 2;
    }
  }

  lemma DigitBits(mode: nat, bit: nat)
    requires bit in {4, 2, 1}
    ensures Has(mode, 64 * bit) <==> Has(mode / 64 % 8, bit)
    ensures Has(mode, 8 * bit) <==> Has(mode / 8 % 8, bit)
    ensures Has(mode, bit) <==> Has(mode % 8, bit)
  {
    hide Has;
    ShiftBit(mode, bit);
    LastDigit(mode / 64, bit);
    LastDigit(mode / 8, bit);
    LastDigit(mode, bit);
  }

  lemma OrBits(a: nat, b: nat, bit: nat)
    requires a < 8 && b < 8 && bit in {4, 2, 1}
    ensures Or(a, b) < 8 && (Has(Or(a, b), bit) <==> Has(a, bit) || Has(b, bit))
  {
  }

  lemma PermissionDigits(mode: nat)
    ensures var p, u, g, o := Permissions(mode), mode / 64 % 8, mode / 8 % 8, mode % 8;
            p < 0x200 && p / 64 % 8 == u && p / 8 % 8 == Or(g, u) && p % 8 == Or(o, Or(g, u)) && Or(g, u) < 8
  {
    var u, g, o := mode / 64 % 8, mode / 8 % 8, mode % 8;
    OrBits(g, u, 1);
    OrBits(o, Or(g, u), 1);
    var x, y := Or(g, u), Or(o, Or(g, u));
    hide Or;
    ThreeDigits(u, x, y);
  }

  lemma ThreeDigits(u: nat, x: nat, y: nat)
    requires u < 8 && x < 8 && y < 8
    ensures var p := u * 64 + x * 8 + y; p < 0x200 && p / 64 % 8 == u && p / 8 % 8 == x && p % 8 == y
  {
    var p := u * 64 + x * 8 + y;
    assert p / 64 == u by { Quotient(u, x * 8 + y); }
    assert p / 8 == 8 * u + x by { Quotient(8 * u + x, y); }
  }

  lemma PermissionBits(mode: nat, bit: nat)
    requires bit in {4, 2, 1}
    ensures Grants(Permissions(mode), mode, bit)
  {
    hide Permissions, Has, Or;
    var p, u, g, o := Permissions(mode), mode / 64 % 8, mode / 8 % 8, mode % 8;
    PermissionDigits(mode);
    DigitBits(mode, bit);
    DigitBits(p, bit);
    OrBits(g, u, bit);
    OrBits(o, Or(g, u), bit);
  }

  /** The permissions a file gets, bit by bit. */
  lemma PermissionsWiden(mode: nat)
    ensures Widened(Permissions(mode), mode)
  {
    hide Permissions, Grants;
    PermissionDigits(mode);
    PermissionBits(mode, 4);
    PermissionBits(mode, 2);
    PermissionBits(mode, 1);
  }

  lemma {:induction false} DecimalValue(n: nat, rest: Bytes)
    ensures DigitsValue(Decimal(n) + rest, 10, 0) == DigitsValue(rest, 10, n)
    ensures n > 0 ==> Decimal(n)[0] != 48
    ensures |Decimal(n)| > 0 && COMMA !in Decimal(n)
    decreases n
  {
    if n < 10 {
      assert (Decimal(n) + rest)[1..] == rest;
    } else {
      var d: Bytes := [48 + n % 10];
      assert Decimal(n) + rest == Decimal(n / 10) + (d + rest);
      DecimalValue(n / 10, d + rest);
      assert (d + rest)[1..] == rest;
    }
  }

  lemma LastCommaAt(s: Bytes, k: nat)
    requires k < |s| && s[k] == COMMA && forall j :: k < j < |s| ==> s[j] != COMMA
    ensures LastComma(s) == Some(k)
  {
    var r := LastComma(s);
    assert r.Some?;
    assert s[r.value] == COMMA;
  }

  /** The server recovers the path, whatever commas it has, and the mode if and only if it is a 32-bit number. */
  lemma NameRoundTrip(path: Path, mode: nat)
    ensures SplitName(NameWithMode(path, mode)) == (path, if mode < WORD_SIZE then mode else 420)
    ensures SplitName(NameWithMode(path, mode)) == (path, mode) <==> mode < WORD_SIZE
  {
    var name, d := NameWithMode(path, mode), Decimal(mode);
    DecimalValue(mode, []);
    assert d + [] == d;
    if mode == 0 {
      assert d == [48];
      assert DigitsValue(d, 8, 0) == DigitsValue(d[1..], 8, 0);
    }
    LastCommaAt(name, |path|);
    assert name[..|path|] == path && name[|path| + 1..] == d;
  }

  /** A name without a mode is the path; its file may be read and written, but not run, by everybody. */
  lemma BareName(path: Path)
    requires COMMA !in path
    ensures SplitName(path).0 == path
    ensures var p := Permissions(SplitName(path).1);
            Has(p, 256) && Has(p, 128) && !Has(p, 64) && Has(p, 32) && Has(p, 16) && !Has(p, 8) && Has(p, 4) && Has(p, 2) && !Has(p, 1)
  {
    if LastComma(path).Some? {
      assert false;
    }
  }

  function DigitByte(d: nat, upper: bool): Byte
    requires d < 16
  {
    if d < 10 then 48 + d else if upper then 55 + d else 87 + d
  }

  /** A numeral in base 8 or 16. */
  function InBase(n: nat, base: nat, upper: bool): Bytes
    requires base == 8 || base == 16
  {
    if n < base then [DigitByte(n, upper)] else InBase(n / base, base, upper) + [DigitByte(n % base, upper)]
  }

  lemma {:induction false} InBaseValue(n: nat, base: nat, upper: bool, rest: Bytes)
    requires base == 8 || base == 16
    ensures DigitsValue(InBase(n, base, upper) + rest, base, 0) == DigitsValue(rest, base, n)
    ensures COMMA !in InBase(n, base, upper) && InBase(n, base, upper) != []
    decreases n
  {
    hide DigitsValue, DigitByte;
    if n < base {
      DigitStep(n, base, upper, 0, rest);
    } else {
      var q, d := n / base, n % base;
      var b := [DigitByte(d, upper)];
      assert InBase(n, base, upper) + rest == InBase(q, base, upper) + (b + rest);
      InBaseValue(q, base, upper, b + rest);
      DigitStep(d, base, upper, q, rest);
      assert q * base + d == n by { assert base == 8 ==> 8 * q + d == n; assert base == 16 ==> 16 * q + d == n; }
    }
  }

  lemma DigitStep(d: nat, base: nat, upper: bool, sum: nat, rest: Bytes)
    requires (base == 8 || base == 16) && d < base
    ensures DigitsValue([DigitByte(d, upper)] + rest, base, sum) == DigitsValue(rest, base, sum * base + d)
    ensures DigitByte(d, upper) != COMMA
  {
    hide Digit, DigitByte;
    DigitOf(d, base, upper);
    assert ([DigitByte(d, upper)] + rest)[1..] == rest;
  }

  lemma DigitOf(d: nat, base: nat, upper: bool)
    requires (base == 8 || base == 16) && d < base
    ensures Digit(DigitByte(d, upper), base) == Some(d) && DigitByte(d, upper) != COMMA
    ensures base == 8 ==> DigitByte(d, upper) != 120 && DigitByte(d, upper) != 88
  {
  }

  lemma {:induction false} OctalDigits(n: nat, k: nat)
    requires k < |InBase(n, 8, false)|
    ensures InBase(n, 8, false)[k] != 120 && InBase(n, 8, false)[k] != 88
    decreases n
  {
    DigitOf(n % 8, 8, false);
    if n >= 8 && k < |InBase(n / 8, 8, false)| {
      OctalDigits(n / 8, k);
    }
  }

  lemma OctalValue(mode: nat)
    ensures StrToUl([48] + InBase(mode, 8, false)) == mode && COMMA !in InBase(mode, 8, false)
  {
    hide Digit, InBase;
    var o := InBase(mode, 8, false);
    InBaseValue(mode, 8, false, []);
    OctalDigits(mode, 0);
    ZeroDigit();
    assert o + [] == o;
    var a: Bytes := [48] + o;
    assert a[1..] == o;
    assert DigitsValue(a, 8, 0) == DigitsValue(o, 8, 0);
  }

  lemma HexValue(mode: nat, upper: bool, x: Byte)
    requires x == 120 || x == 88
    ensures StrToUl([48, x] + InBase(mode, 16, upper)) == mode && COMMA !in InBase(mode, 16, upper)
  {
    hide Digit, InBase;
    var h := InBase(mode, 16, upper);
    InBaseValue(mode, 16, upper, []);
    assert h + [] == h;
    var b: Bytes := [48, x] + h;
    assert b[2..] == h;
  }

  /** A mode in octal or hexadecimal, as other clients may send it, is understood as well. */
  lemma OtherModes(path: Path, mode: Word, upper: bool, x: Byte)
    requires x == 120 || x == 88
    ensures SplitName(path + [COMMA] + ([48] + InBase(mode, 8, false))) == (path, mode as nat)
    ensures SplitName(path + [COMMA] + ([48, x] + InBase(mode, 16, upper))) == (path, mode as nat)
  {
    hide StrToUl, InBase, SplitName;
    OctalValue(mode);
    HexValue(mode, upper, x);
    SplitAt(path, [48] + InBase(mode, 8, false));
    SplitAt(path, [48, x] + InBase(mode, 16, upper));
  }

  lemma ZeroDigit()
    ensures Digit(48, 8) == Some(0)
  {
  }

  lemma SplitAt(path: Path, suffix: Bytes)
    requires COMMA !in suffix
    ensures var mode := StrToUl(suffix);
            SplitName(path + [COMMA] + suffix) == (path, if mode < WORD_SIZE then mode else 420)
  {
    hide StrToUl;
    var name := path + [COMMA] + suffix;
    LastCommaAt(name, |path|);
    assert name[..|path|] == path && name[|path| + 1..] == suffix;
  }

  // ---- what the client sends ----

  predicate IsChunk(c: Bytes) {
    0 < |c| <= SYNC_DATA_MAX
  }

  predicate AreChunks(cs: seq<Bytes>) {
    forall k :: 0 <= k < |cs| ==> IsChunk(cs[k])
  }

  /** What a DATA message may carry. */
  predicate Framed(cs: seq<Bytes>) {
    forall k :: 0 <= k < |cs| ==> |cs[k]| <= SYNC_DATA_MAX
  }

  /** A DATA message per chunk */
  function DataFrames(cs: seq<Bytes>): Bytes
    requires Framed(cs)
  {
    if cs == [] then [] else Frame(ID_DATA, |cs[0]|) + cs[0] + DataFrames(cs[1..])
  }

  datatype Request =
    | Stat(path: Path)
    | Pull(path: Path)
    | Push(path: Path, mode: nat, chunks: seq<Bytes>, mtime: Word)

  /** The name a request carries. */
  function NameOf(r: Request): Bytes {
    match r
    case Stat(path) => path
    case Pull(path) => path
    case Push(path, mode, _, _) => NameWithMode(path, mode)
  }

  /** What the client programs accept to send. */
  predicate Sendable(r: Request) {
    && 0 !in r.path && |r.path| <= MAX_NAME
    && (r.Push? ==> IsRegular(r.mode) && r.mode < 0x1_0000 && AreChunks(r.chunks))
  }

  lemma {:induction false} DecimalShort(n: nat)
    ensures |Decimal(n)| <= n + 1
  {
    if n >= 10 {
      DecimalShort(n / 10);
    }
  }

  /** The mode suffix is short. */
  lemma NameFits(r: Request)
    requires Sendable(r)
    ensures |NameOf(r)| < WORD_SIZE
  {
    if r.Push? {
      DecimalShort(r.mode);
    }
  }

  /** sync_start_readtime, sync_recv and sync_send */
  function RequestBytes(r: Request): Bytes
    requires Sendable(r)
  {
    NameFits(r);
    match r
    case Stat(path) => Frame(ID_STAT, |path|) + path
    case Pull(path) => Frame(ID_RECV, |path|) + path
    case Push(path, mode, chunks, mtime) =>
      Frame(ID_SEND, |NameOf(r)|) + NameOf(r) + DataFrames(chunks) + Frame(ID_DONE, mtime)
  }

  // ---- the server ----

  /** The state of the loop of handle_send_file: the open file, if any, and the replies so far. */
  datatype Receiving = Receiving(open: bool, data: Bytes, count: nat, replies: Bytes)

  /** How handle_send_file ends: with DONE and its time stamp, or with the connection given up. */
  datatype Received = Finished(rx: Receiving, mtime: Word, rest: Bytes) | GivenUp(replies: Bytes)

  function StoreChunk(rx: Receiving, data: Bytes, disk: Disk): Receiving
    requires DiskOk(disk)
  {
    if !rx.open then rx
    else if disk.failsAt == Some(rx.count) then rx.(open := false, replies := rx.replies + FailReply(disk.reason))
    else rx.(data := rx.data + data, count := rx.count + 1)
  }

  /** The loop of handle_send_file */
  function ReceiveLoop(s: Bytes, rx: Receiving, disk: Disk): (r: Received)
    requires DiskOk(disk)
    ensures r.Finished? ==> |r.rest| < |s|
    decreases |s|
  {
    if |s| < 8 then GivenUp(rx.replies)
    else
      var id, size := FrameId(s), FrameSize(s);
      if id == ID_DONE then Finished(rx, size, s[8..])
      else if id != ID_DATA then GivenUp(rx.replies + FailReply(Ascii("invalid data message")))
      else if size > SYNC_DATA_MAX then GivenUp(rx.replies + FailReply(Ascii("oversize data message")))
      else if |s| < 8 + size then GivenUp(rx.replies)
      else ReceiveLoop(s[8 + size..], StoreChunk(rx, s[8..8 + size], disk), disk)
  }

  /** The outcome of one command: files and replies, and the rest of the input if the loop goes on. */
  datatype Served = Served(files: Files, replies: Bytes, rest: Option<Bytes>)

  /** handle_send_file for a path that do_send has unlinked */
  function SendFile(s: Bytes, files: Files, path: Path, mode: nat, disk: Disk): (r: Served)
    requires DiskOk(disk)
    ensures r.rest.Some? ==> |r.rest.value| < |s|
  {
    var rx := Receiving(disk.opens, [], 0, if disk.opens then [] else FailReply(disk.reason));
    match ReceiveLoop(s, rx, disk)
    case GivenUp(replies) => Served(files - {path}, replies, None)
    case Finished(rx, mtime, rest) =>
      if rx.open then
        Served(files[path := File(rx.data, mtime, Permissions(mode))], rx.replies + OKAY_REPLY, Some(rest))
      else Served(files - {path}, rx.replies, Some(rest))
  }

  /** do_stat */
  function StatReply(files: Files, path: Path): Bytes {
    if path in files then
      Le32(ID_STAT) + Le32((0x8000 + files[path].mode) % WORD_SIZE) + Le32(|files[path].data| % WORD_SIZE) + Le32(files[path].mtime)
    else Le32(ID_STAT) + Le32(0) + Le32(0) + Le32(0)
  }

  /** The pieces in which adb_read returns a file. */
  function Split(data: Bytes, sizes: seq<nat>): (cs: seq<Bytes>)
    ensures AreChunks(cs) && Concat(cs) == data
    decreases |data|
  {
    if data == [] then []
    else
      var most := if |data| <= SYNC_DATA_MAX then |data| else SYNC_DATA_MAX;
      var n := if sizes != [] && 0 < sizes[0] < most then sizes[0] else most;
      var rest := Split(data[n..], if sizes == [] then [] else sizes[1..]);
      assert ([data[..n]] + rest)[1..] == rest && data[..n] + data[n..] == data;
      [data[..n]] + rest
  }

  /** do_recv: after a failed read, what was read and a FAIL */
  function RecvReply(files: Files, path: Path, disk: Disk): Bytes
    requires DiskOk(disk)
  {
    if path !in files || !disk.opens then FailReply(disk.reason)
    else
      var data := files[path].data;
      DataFrames(Split(BytesRead(disk, data), disk.pieces)) +
      if ReadFails(disk, data) then FailReply(disk.reason) else Frame(ID_DONE, 0)
  }

  /** A C string ends at its first NUL. */
  function CStr(s: Bytes): Bytes {
    if s == [] || s[0] == 0 then [] else [s[0]] + CStr(s[1..])
  }

  /** Outcome of a command outside the model: LIST, and SEND of a symbolic link. */
  datatype Command = Done(served: Served) | NotModelled

  const ID_LIST: Word := 0x5453_494C

  /** One turn of the loop of file_sync_service */
  function ServeOne(s: Bytes, files: Files, disk: Disk): (r: Command)
    requires DiskOk(disk)
    ensures r.Done? && r.served.rest.Some? ==> |r.served.rest.value| < |s|
  {
    if |s| < 8 then Done(Served(files, FailReply(Ascii("command read failure")), None))
    else
      var id, n := FrameId(s), FrameSize(s);
      if n > MAX_NAME then Done(Served(files, FailReply(Ascii("invalid namelen")), None))
      else if |s| < 8 + n then Done(Served(files, FailReply(Ascii("filename read failure")), None))
      else
        var name, rest := CStr(s[8..8 + n]), s[8 + n..];
        if id == ID_STAT then Done(Served(files, StatReply(files, name), Some(rest)))
        else if id == ID_RECV then Done(Served(files, RecvReply(files, name, disk), Some(rest)))
        else if id == ID_SEND then
          var (path, mode) := SplitName(name);
          if IsLink(mode) then NotModelled else Done(SendFile(rest, files, path, mode, disk))
        else if id == ID_QUIT then Done(Served(files, [], None))
        else if id == ID_LIST then NotModelled
        else Done(Served(files, FailReply(Ascii("unknown command")), None))
  }

  // ---- what each request should do ----

  /** The disk takes the whole file. */
  predicate Stores(disk: Disk, chunks: seq<Bytes>) {
    disk.opens && (disk.failsAt.Some? ==> disk.failsAt.value >= |chunks|)
  }

  function Effect(files: Files, r: Request, disk: Disk): Files {
    match r
    case Push(path, mode, chunks, mtime) =>
      if Stores(disk, chunks) then files[path := File(Concat(chunks), mtime, Permissions(mode))] else files - {path}
    case _ => files
  }

  /** Exactly one reply: OKAY for a file stored, one FAIL otherwise. */
  function Reply(files: Files, r: Request, disk: Disk): Bytes
    requires DiskOk(disk)
  {
    match r
    case Stat(path) => StatReply(files, path)
    case Pull(path) => RecvReply(files, path, disk)
    case Push(_, _, chunks, _) => if Stores(disk, chunks) then OKAY_REPLY else FailReply(disk.reason)
  }

  lemma {:induction false} CStrWhole(s: Bytes)
    requires 0 !in s
    ensures CStr(s) == s
  {
    if s != [] {
      CStrWhole(s[1..]);
    }
  }

  /** What follows a NUL in a name is not seen. */
  lemma {:induction false} CStrCut(name: Bytes, more: Bytes)
    requires 0 !in name
    ensures CStr(name + [0] + more) == name
  {
    var s := name + [0] + more;
    if name == [] {
      assert s[0] == 0;
    } else {
      assert s[0] == name[0] && s[1..] == name[1..] + [0] + more;
      CStrCut(name[1..], more);
    }
  }

  lemma {:induction false} DecimalNoNul(n: nat)
    ensures 0 !in Decimal(n)
  {
    if n >= 10 {
      DecimalNoNul(n / 10);
    }
  }

  /** The receive loop reads chunk after chunk and stays aligned, whether or not it can store them. */
  lemma {:induction false} LoopReadsChunks(chunks: seq<Bytes>, mtime: Word, rest: Bytes, rx: Receiving, disk: Disk)
    requires Framed(chunks) && DiskOk(disk)
    ensures ReceiveLoop(DataFrames(chunks) + Frame(ID_DONE, mtime) + rest, rx, disk) ==
            Finished(StoreAll(rx, chunks, disk), mtime, rest)
    decreases chunks
  {
    hide Frame, FrameId, FrameSize, StoreChunk;
    var tail := Frame(ID_DONE, mtime) + rest;
    if chunks == [] {
      assert DataFrames(chunks) + Frame(ID_DONE, mtime) + rest == tail;
      FrameRoundTrip(ID_DONE, mtime, rest);
    } else {
      var c, s := chunks[0], DataFrames(chunks) + Frame(ID_DONE, mtime) + rest;
      var after := DataFrames(chunks[1..]) + Frame(ID_DONE, mtime) + rest;
      assert s == Frame(ID_DATA, |c|) + (c + after);
      FrameRoundTrip(ID_DATA, |c|, c + after);
      assert s[8..8 + |c|] == s[8..][..|c|] == c && s[8 + |c|..] == s[8..][|c|..] == after;
      LoopReadsChunks(chunks[1..], mtime, rest, StoreChunk(rx, c, disk), disk);
    }
  }

  function StoreAll(rx: Receiving, chunks: seq<Bytes>, disk: Disk): Receiving
    requires DiskOk(disk)
    decreases chunks
  {
    if chunks == [] then rx else StoreAll(StoreChunk(rx, chunks[0], disk), chunks[1..], disk)
  }

  /** What is stored: everything, or nothing and one FAIL. */
  lemma {:induction false} StoreAllResult(rx: Receiving, chunks: seq<Bytes>, disk: Disk)
    requires DiskOk(disk)
    requires rx.open && disk.failsAt.Some? ==> rx.count <= disk.failsAt.value
    ensures var r := StoreAll(rx, chunks, disk);
            if !rx.open then r == rx
            else if disk.failsAt.Some? && disk.failsAt.value < rx.count + |chunks| then
              !r.open && r.replies == rx.replies + FailReply(disk.reason)
            else r == rx.(data := rx.data + Concat(chunks), count := rx.count + |chunks|)
    decreases chunks
  {
    hide FailReply;
    if chunks != [] {
      StoreAllResult(StoreChunk(rx, chunks[0], disk), chunks[1..], disk);
      assert rx.data + chunks[0] + Concat(chunks[1..]) == rx.data + Concat(chunks);
    } else {
      assert rx.data + Concat(chunks) == rx.data;
    }
  }

  /** Conversely, the loop only finishes on DATA messages that DONE ends. */
  lemma {:induction false} LoopReadsOnlyChunks(s: Bytes, rx: Receiving, disk: Disk) returns (chunks: seq<Bytes>)
    requires DiskOk(disk) && ReceiveLoop(s, rx, disk).Finished?
    ensures var r := ReceiveLoop(s, rx, disk);
            Framed(chunks) && s == DataFrames(chunks) + Frame(ID_DONE, r.mtime) + r.rest && r.rx == StoreAll(rx, chunks, disk)
    decreases |s|
  {
    hide Frame, FrameId, FrameSize, StoreChunk, DataFrames;
    var id, size, r := FrameId(s), FrameSize(s), ReceiveLoop(s, rx, disk);
    FrameOf(s);
    if id != ID_DONE {
      var c, after := s[8..8 + size], s[8 + size..];
      var rest := LoopReadsOnlyChunks(after, StoreChunk(rx, c, disk), disk);
      chunks := [c] + rest;
      FramesCons(c, rest);
      assert chunks[1..] == rest;
      Rejoin(s, Frame(ID_DATA, size), c, DataFrames(rest), Frame(ID_DONE, r.mtime), r.rest);
    } else {
      chunks := [];
      FramesNil();
      assert s == s[..8] + s[8..] && [] + s[..8] == s[..8];
    }
  }

  lemma FramesNil()
    ensures DataFrames([]) == []
  {
  }

  lemma FramesCons(c: Bytes, rest: seq<Bytes>)
    requires |c| <= SYNC_DATA_MAX && Framed(rest)
    ensures Framed([c] + rest) && DataFrames([c] + rest) == Frame(ID_DATA, |c|) + c + DataFrames(rest)
  {
    hide Frame;
    assert ([c] + rest)[1..] == rest;
  }

  lemma Rejoin(s: Bytes, f: Bytes, c: Bytes, d: Bytes, e: Bytes, r: Bytes)
    requires |f| == 8 && 8 + |c| <= |s| && s[..8] == f && s[8..8 + |c|] == c && s[8 + |c|..] == d + e + r
    ensures s == f + c + d + e + r
  {
    assert s == s[..8] + s[8..8 + |c|] + s[8 + |c|..];
    assert f + c + (d + e + r) == f + c + d + e + r;
  }

  lemma FrameOf(s: Bytes)
    requires |s| >= 8
    ensures s[..8] == Frame(FrameId(s), FrameSize(s))
  {
    BytesRoundTrip(s[0..4]);
    BytesRoundTrip(s[4..8]);
    assert s[..8] == s[0..4] + s[4..8];
  }

  /** Chunks and then a message of another kind, or too long a chunk: the connection is given up, and the client told why. */
  lemma {:induction false} BadFrameTold(chunks: seq<Bytes>, id: Word, size: Word, rest: Bytes, rx: Receiving, disk: Disk)
    requires Framed(chunks) && DiskOk(disk) && id != ID_DONE && (id == ID_DATA ==> size > SYNC_DATA_MAX)
    ensures ReceiveLoop(DataFrames(chunks) + (Frame(id, size) + rest), rx, disk) ==
            GivenUp(StoreAll(rx, chunks, disk).replies
                    + FailReply(Ascii(if id == ID_DATA then "oversize data message" else "invalid data message")))
    decreases chunks
  {
    hide Frame, FrameId, FrameSize, StoreChunk, FailReply;
    var tail := Frame(id, size) + rest;
    if chunks == [] {
      assert DataFrames(chunks) + tail == tail;
      FrameRoundTrip(id, size, rest);
    } else {
      var c, after := chunks[0], DataFrames(chunks[1..]) + tail;
      var s := DataFrames(chunks) + tail;
      assert s == Frame(ID_DATA, |c|) + (c + after);
      FrameRoundTrip(ID_DATA, |c|, c + after);
      assert s[8..8 + |c|] == s[8..][..|c|] == c && s[8 + |c|..] == s[8..][|c|..] == after;
      BadFrameTold(chunks[1..], id, size, rest, StoreChunk(rx, c, disk), disk);
    }
  }

  /** DATA messages ended by DONE, and then `rest`. */
  ghost predicate IsTransfer(s: Bytes, chunks: seq<Bytes>, mtime: Word, rest: Bytes) {
    Framed(chunks) && s == DataFrames(chunks) + Frame(ID_DONE, mtime) + rest
  }

  /**
   Whatever bytes follow a SEND: the session goes on if and only if they are DATA messages ended by DONE. The file is
   then all of their data or, if the disk fails, gone; after anything else it is gone. No other file changes.
   */
  lemma SendAllOrNothing(s: Bytes, files: Files, path: Path, mode: nat, disk: Disk)
    requires DiskOk(disk)
    ensures var o := SendFile(s, files, path, mode, disk);
            && (o.rest.Some? <==> exists chunks, mtime, rest :: IsTransfer(s, chunks, mtime, rest))
            && (o.rest.None? ==> o.files == files - {path})
            && forall chunks, mtime, rest :: IsTransfer(s, chunks, mtime, rest) ==>
                 && o.rest == Some(rest)
                 && o.files == if Stores(disk, chunks) then files[path := File(Concat(chunks), mtime, Permissions(mode))]
                               else files - {path}
  {
    hide ReceiveLoop, Permissions, Concat, FailReply, DataFrames, Frame;
    var rx := Receiving(disk.opens, [], 0, if disk.opens then [] else FailReply(disk.reason));
    forall chunks, mtime, rest | IsTransfer(s, chunks, mtime, rest)
      ensures ReceiveLoop(s, rx, disk) == Finished(StoreAll(rx, chunks, disk), mtime, rest)
    {
      LoopReadsChunks(chunks, mtime, rest, rx, disk);
    }
    forall chunks
      ensures var r := StoreAll(rx, chunks, disk);
              (r.open <==> Stores(disk, chunks)) && (r.open ==> r.data == Concat(chunks))
    {
      StoreAllResult(rx, chunks, disk);
      assert [] + Concat(chunks) == Concat(chunks);
    }
    if ReceiveLoop(s, rx, disk).Finished? {
      var chunks := LoopReadsOnlyChunks(s, rx, disk);
      var r := ReceiveLoop(s, rx, disk);
      assert IsTransfer(s, chunks, r.mtime, r.rest);
    }
  }

  lemma NameNoNul(r: Request)
    requires Sendable(r)
    ensures 0 !in NameOf(r)
  {
    if r.Push? {
      DecimalNoNul(r.mode);
    }
  }

  /** The name that heads a command. */
  lemma CommandHead(id: Word, name: Bytes, rest: Bytes)
    requires |name| < WORD_SIZE
    ensures var s := Frame(id, |name|) + name + rest;
            && |s| == 8 + |name| + |rest| && FrameId(s) == id && FrameSize(s) == |name|
            && s[8..8 + |name|] == name && s[8 + |name|..] == rest
  {
    hide Frame, FrameId, FrameSize;
    var s := Frame(id, |name|) + name + rest;
    assert s == Frame(id, |name|) + (name + rest);
    FrameRoundTrip(id, |name|, name + rest);
    assert s[8..8 + |name|] == s[8..][..|name|] && s[8 + |name|..] == s[8..][|name|..];
  }

  lemma PushServed(r: Request, files: Files, disk: Disk, rest: Bytes)
    requires Sendable(r) && DiskOk(disk) && r.Push?
    ensures SendFile(DataFrames(r.chunks) + Frame(ID_DONE, r.mtime) + rest, files, r.path, r.mode, disk) ==
            Served(Effect(files, r, disk), Reply(files, r, disk), Some(rest))
  {
    hide Frame, FailReply, ReceiveLoop, DataFrames;
    var rx := Receiving(disk.opens, [], 0, if disk.opens then [] else FailReply(disk.reason));
    LoopReadsChunks(r.chunks, r.mtime, rest, rx, disk);
    StoreAllResult(rx, r.chunks, disk);
    assert [] + Concat(r.chunks) == Concat(r.chunks);
    assert [] + FailReply(disk.reason) == FailReply(disk.reason) && [] + OKAY_REPLY == OKAY_REPLY;
  }

  /** Every request the client sends, if its name fits, is carried out, answered once, and leaves the loop at the next command. */
  lemma RequestServed(r: Request, files: Files, disk: Disk, rest: Bytes)
    requires Sendable(r) && DiskOk(disk) && |NameOf(r)| <= MAX_NAME
    ensures ServeOne(RequestBytes(r) + rest, files, disk) ==
            Done(Served(Effect(files, r, disk), Reply(files, r, disk), Some(rest)))
  {
    hide Frame, FrameId, FrameSize, DataFrames, SendFile, Effect, Reply, SplitName;
    if r.Push? {
      PushRequestServed(r, files, disk, rest);
    } else {
      NameNoNul(r);
      CStrWhole(NameOf(r));
      CommandHead(if r.Stat? then ID_STAT else ID_RECV, r.path, rest);
      SimpleReply(files, r, disk);
    }
  }

  lemma PushRequestServed(r: Request, files: Files, disk: Disk, rest: Bytes)
    requires Sendable(r) && DiskOk(disk) && |NameOf(r)| <= MAX_NAME && r.Push?
    ensures ServeOne(RequestBytes(r) + rest, files, disk) ==
            Done(Served(Effect(files, r, disk), Reply(files, r, disk), Some(rest)))
  {
    hide Frame, FrameId, FrameSize, DataFrames, SendFile, Effect, Reply, SplitName, CStr;
    NameNoNul(r);
    CStrWhole(NameOf(r));
    var tail := DataFrames(r.chunks) + Frame(ID_DONE, r.mtime) + rest;
    PushText(r, rest);
    CommandHead(ID_SEND, NameOf(r), tail);
    NameRoundTrip(r.path, r.mode);
    hide RequestBytes;
    PushServed(r, files, disk, rest);
  }

  lemma PushText(r: Request, rest: Bytes)
    requires Sendable(r) && r.Push? && |NameOf(r)| <= MAX_NAME
    ensures RequestBytes(r) + rest == Frame(ID_SEND, |NameOf(r)|) + NameOf(r) + (DataFrames(r.chunks) + Frame(ID_DONE, r.mtime) + rest)
  {
    hide Frame, DataFrames;
  }

  lemma SimpleReply(files: Files, r: Request, disk: Disk)
    requires DiskOk(disk) && !r.Push?
    ensures Effect(files, r, disk) == files
    ensures Reply(files, r, disk) == if r.Stat? then StatReply(files, r.path) else RecvReply(files, r.path, disk)
  {
  }

  /** What the server says before it gives up: a command cut short, too long a name, a name cut short, an unknown command. */
  lemma BadCommandTold(id: Word, size: Word, text: Bytes, files: Files, disk: Disk)
    requires DiskOk(disk)
    ensures forall s: Bytes :: |s| < 8 ==> ServeOne(s, files, disk) == Done(Served(files, FailReply(Ascii("command read failure")), None))
    ensures var o := ServeOne(Frame(id, size) + text, files, disk);
            && (size > MAX_NAME ==> o == Done(Served(files, FailReply(Ascii("invalid namelen")), None)))
            && (size <= MAX_NAME && |text| < size ==> o == Done(Served(files, FailReply(Ascii("filename read failure")), None)))
            && (size <= |text| && size <= MAX_NAME && !Known(id) ==>
                  o == Done(Served(files, FailReply(Ascii("unknown command")), None)))
            && (size <= |text| && size <= MAX_NAME && id == ID_QUIT ==> o == Done(Served(files, [], None)))
  {
    hide Frame, FrameId, FrameSize, FailReply, SendFile, StatReply, RecvReply, SplitName, CStr;
    FrameRoundTrip(id, size, text);
  }

  predicate Known(id: Word) {
    id == ID_STAT || id == ID_RECV || id == ID_SEND || id == ID_QUIT || id == ID_LIST
  }

  /** A push is carried out if and only if path and mode suffix fit in 1024 bytes; sync_send only checks the path. */
  lemma PushNeedsShortName(r: Request, files: Files, disk: Disk, rest: Bytes)
    requires Sendable(r) && r.Push? && DiskOk(disk)
    ensures ServeOne(RequestBytes(r) + rest, files, disk) ==
            Done(Served(Effect(files, r, disk), Reply(files, r, disk), Some(rest)))
            <==> |NameOf(r)| <= MAX_NAME
  {
    hide Frame, FrameId, FrameSize, DataFrames, SendFile, Effect, Reply, SplitName;
    if |NameOf(r)| <= MAX_NAME {
      RequestServed(r, files, disk, rest);
    } else {
      LongNameServed(r, files, disk, rest);
    }
  }

  // ---- the command loop ----

  function NextDisk(disks: seq<Disk>): Disk {
    if disks == [] then Disk(true, None, None, [], []) else disks[0]
  }

  predicate DisksOk(disks: seq<Disk>) {
    forall k :: 0 <= k < |disks| ==> DiskOk(disks[k])
  }

  function Later(disks: seq<Disk>): seq<Disk> {
    if disks == [] then [] else disks[1..]
  }

  /** The end of a session: the files, and all replies in order. */
  datatype Session = Session(files: Files, replies: Bytes)

  /** file_sync_service; a command outside the model ends the session here. */
  function Serve(s: Bytes, files: Files, disks: seq<Disk>): Session
    requires DisksOk(disks)
    decreases |s|
  {
    match ServeOne(s, files, NextDisk(disks))
    case NotModelled => Session(files, [])
    case Done(Served(files', replies, rest)) =>
      if rest.None? then Session(files', replies)
      else
        var later := Serve(rest.value, files', Later(disks));
        later.(replies := replies + later.replies)
  }

  function AllBytes(rs: seq<Request>): Bytes
    requires forall k :: 0 <= k < |rs| ==> Sendable(rs[k])
  {
    if rs == [] then [] else RequestBytes(rs[0]) + AllBytes(rs[1..])
  }

  /** The requests carried out one after the other. */
  function Perform(rs: seq<Request>, files: Files, disks: seq<Disk>): Session
    requires DisksOk(disks)
    decreases rs
  {
    if rs == [] then Session(files, [])
    else
      var d := NextDisk(disks);
      var later := Perform(rs[1..], Effect(files, rs[0], d), Later(disks));
      later.(replies := Reply(files, rs[0], d) + later.replies)
  }

  /** The disks of the commands after the first n. */
  function LaterBy(disks: seq<Disk>, n: nat): seq<Disk> {
    if n == 0 then disks else LaterBy(Later(disks), n - 1)
  }

  lemma {:induction false} LaterOk(disks: seq<Disk>, n: nat)
    requires DisksOk(disks)
    ensures DisksOk(LaterBy(disks, n))
    decreases n
  {
    if n > 0 {
      LaterOk(Later(disks), n - 1);
    }
  }

  /**
   However many requests are pipelined and whichever of their files fail, the session does and answers
   what the requests ask, in order, and then goes on with what follows.
   */
  lemma {:induction false} PipelineServed(rs: seq<Request>, rest: Bytes, files: Files, disks: seq<Disk>)
    requires DisksOk(disks)
    requires forall k :: 0 <= k < |rs| ==> Sendable(rs[k]) && |NameOf(rs[k])| <= MAX_NAME
    ensures DisksOk(LaterBy(disks, |rs|))
    ensures var done := Perform(rs, files, disks);
            var after := Serve(rest, done.files, LaterBy(disks, |rs|));
            Serve(AllBytes(rs) + rest, files, disks) == Session(after.files, done.replies + after.replies)
    decreases rs
  {
    hide ServeOne, RequestBytes, Effect, Reply;
    LaterOk(disks, |rs|);
    if rs == [] {
      assert AllBytes(rs) + rest == rest;
      assert [] + Serve(rest, files, disks).replies == Serve(rest, files, disks).replies;
    } else {
      var tail, d := AllBytes(rs[1..]) + rest, NextDisk(disks);
      assert AllBytes(rs) + rest == RequestBytes(rs[0]) + tail;
      RequestServed(rs[0], files, d, tail);
      var files' := Effect(files, rs[0], d);
      PipelineServed(rs[1..], rest, files', Later(disks));
      var done, later := Perform(rs[1..], files', Later(disks)), LaterBy(Later(disks), |rs| - 1);
      var after := Serve(rest, done.files, later);
      assert Reply(files, rs[0], d) + (done.replies + after.replies) == Reply(files, rs[0], d) + done.replies + after.replies;
    }
  }

  // ---- what the client makes of it ----

  /** The status that sync_send reads: whether it is OKAY, and what is left; at most 256 bytes of a reason are read. */
  function ReadStatus(s: Bytes): Option<(bool, Bytes)> {
    if |s| < 8 then None
    else if FrameId(s) == ID_OKAY then Some((true, s[8..]))
    else if FrameId(s) != ID_FAIL then Some((false, s[8..]))
    else
      var n := if FrameSize(s) > 256 then 256 else FrameSize(s);
      if |s| < 8 + n then None else Some((false, s[8 + n..]))
  }

  /** The client is told that the file is stored. */
  predicate Told(s: Bytes) {
    ReadStatus(s).Some? && ReadStatus(s).value.0
  }

  lemma FailTold(reason: Bytes, rest: Bytes)
    requires |reason| < WORD_SIZE
    ensures var status := ReadStatus(FailReply(reason) + rest);
            status.Some? && !status.value.0 && (status.value.1 == rest <==> |reason| <= 256)
  {
    hide Frame, FrameId, FrameSize;
    var s := Frame(ID_FAIL, |reason|) + reason + rest;
    assert s == Frame(ID_FAIL, |reason|) + (reason + rest);
    FrameRoundTrip(ID_FAIL, |reason|, reason + rest);
    assert |reason| <= 256 ==> s[8 + |reason|..] == s[8..][|reason|..] == rest;
    assert |reason| > 256 ==> |s[8 + 256..]| > |rest|;
  }

  /** Any other message is no OKAY either. */
  lemma OtherTold(id: Word, size: Word, rest: Bytes)
    requires id != ID_OKAY && id != ID_FAIL
    ensures ReadStatus(Frame(id, size) + rest) == Some((false, rest))
  {
    hide Frame, FrameId, FrameSize;
    FrameRoundTrip(id, size, rest);
  }

  /** The client reads OKAY exactly for a file stored; short reasons leave it at the next reply. */
  lemma StatusTold(r: Request, files: Files, disk: Disk, rest: Bytes)
    requires Sendable(r) && r.Push? && DiskOk(disk)
    ensures var status := ReadStatus(Reply(files, r, disk) + rest);
            && status.Some? && (status.value.0 <==> Stores(disk, r.chunks))
            && (status.value.1 == rest <==> Stores(disk, r.chunks) || |disk.reason| <= 256)
  {
    hide Frame, FrameId, FrameSize, FailReply;
    if Stores(disk, r.chunks) {
      FrameRoundTrip(ID_OKAY, 0, rest);
    } else {
      FailTold(disk.reason, rest);
    }
  }

  /** A name too long is refused, and ends the session with the files as they were. */
  lemma LongNameServed(r: Request, files: Files, disk: Disk, rest: Bytes)
    requires Sendable(r) && r.Push? && DiskOk(disk) && |NameOf(r)| > MAX_NAME
    ensures ServeOne(RequestBytes(r) + rest, files, disk) ==
            Done(Served(files, FailReply(Ascii("invalid namelen")), None))
  {
    hide Frame, FrameId, FrameSize, DataFrames, SendFile, FailReply, SplitName;
    var tail := DataFrames(r.chunks) + Frame(ID_DONE, r.mtime) + rest;
    NameFits(r);
    assert RequestBytes(r) + rest == Frame(ID_SEND, |NameOf(r)|) + NameOf(r) + tail;
    CommandHead(ID_SEND, NameOf(r), tail);
  }

  /**
   What the client is told of a push, and the files that the server then has. With a name that fits, OKAY means that
   the path holds the bytes sent with time stamp and permissions, and anything else that the path is gone. No other
   path changes. A name too long leaves all files, and is never told OKAY.
   */
  lemma PushConfirmed(r: Request, files: Files, disk: Disk, rest: Bytes, more: Bytes)
    requires Sendable(r) && r.Push? && DiskOk(disk)
    ensures var o := ServeOne(RequestBytes(r) + rest, files, disk);
            && o.Done? && ReadStatus(o.served.replies + more).Some?
            && (Told(o.served.replies + more) ==> Widened(Permissions(r.mode), r.mode))
            && (if Told(o.served.replies + more)
                then o.served.files == files[r.path := File(Concat(r.chunks), r.mtime, Permissions(r.mode))]
                else o.served.files == if |NameOf(r)| <= MAX_NAME then files - {r.path} else files)
            && (o.served.rest == if |NameOf(r)| <= MAX_NAME then Some(rest) else None)
            && (Told(o.served.replies + more) <==> |NameOf(r)| <= MAX_NAME && Stores(disk, r.chunks))
  {
    hide Permissions, Widened, Concat, ServeOne, ReadStatus, RequestBytes, FailReply, NameOf, Frame;
    PermissionsWiden(r.mode);
    if |NameOf(r)| <= MAX_NAME {
      RequestServed(r, files, disk, rest);
      StatusTold(r, files, disk, more);
    } else {
      LongNameServed(r, files, disk, rest);
      FailTold(Ascii("invalid namelen"), more);
    }
  }

  /** What write_data_file reads of the local file: nothing if it does not open, and no more than comes before a failure. */
  function LocalBytes(file: Bytes, local: Disk): Bytes {
    if local.opens then BytesRead(local, file) else []
  }

  predicate ReadsAll(file: Bytes, local: Disk) {
    file == [] || (local.opens && (local.readFails.Some? ==> local.readFails.value >= |file|))
  }

  /** What is read of a file is all of it if and only if the file is empty or was opened and read to its end. */
  lemma ReadsAllIff(file: Bytes, local: Disk)
    ensures LocalBytes(file, local) == file <==> ReadsAll(file, local)
  {
    if !ReadsAll(file, local) {
      assert |LocalBytes(file, local)| < |file|;
    }
  }

  /**
   sync_send does not look at what write_data_file returns. A push told OKAY holds what was read of the local file,
   and so holds the file if and only if it is empty or was opened and read to its end.
   */
  lemma PushHoldsFile(r: Request, file: Bytes, local: Disk, files: Files, disk: Disk, rest: Bytes)
    requires Sendable(r) && r.Push? && DiskOk(disk) && Concat(r.chunks) == LocalBytes(file, local)
    ensures var o := ServeOne(RequestBytes(r) + rest, files, disk);
            o.Done? && (Told(o.served.replies) ==>
                          && r.path in o.served.files && o.served.files[r.path].data == LocalBytes(file, local)
                          && (o.served.files[r.path].data == file <==> ReadsAll(file, local)))
  {
    hide Permissions, Concat, ServeOne, Told, RequestBytes, LocalBytes, ReadsAll;
    var o := ServeOne(RequestBytes(r) + rest, files, disk);
    PushConfirmed(r, files, disk, rest, []);
    assert o.served.replies + [] == o.served.replies;
    ReadsAllIff(file, local);
  }

  /** A file that cannot be opened replaces the server's file by an empty one, and the client is told OKAY. */
  lemma UnreadableReplaces(r: Request, file: Bytes, local: Disk, files: Files, disk: Disk, rest: Bytes)
    requires Sendable(r) && r.Push? && DiskOk(disk) && Stores(disk, r.chunks) && |NameOf(r)| <= MAX_NAME
    requires Concat(r.chunks) == LocalBytes(file, local) && !local.opens && file != []
    ensures var o := ServeOne(RequestBytes(r) + rest, files, disk);
            && o.Done? && Told(o.served.replies) && r.path in o.served.files && o.served.files[r.path].data == [] != file
  {
    hide ServeOne, Told, RequestBytes, Concat, NameOf;
    PushHoldsFile(r, file, local, files, disk, rest);
    PushConfirmed(r, files, disk, rest, []);
    var o := ServeOne(RequestBytes(r) + rest, files, disk);
    assert o.served.replies + [] == o.served.replies;
  }

  /** A path of 1024 bytes passes the test of sync_send, and the server refuses the name. */
  lemma LongPathRefused(files: Files, disk: Disk, rest: Bytes)
    requires DiskOk(disk)
    ensures var r := Push(seq(MAX_NAME, i => 47), 0x81A4, [], 0);
            && Sendable(r)
            && ServeOne(RequestBytes(r) + rest, files, disk) !=
               Done(Served(Effect(files, r, disk), Reply(files, r, disk), Some(rest)))
  {
    hide ServeOne, Effect, Reply;
    var r := Push(seq(MAX_NAME, i => 47), 0x81A4, [], 0);
    assert |NameOf(r)| > MAX_NAME;
    PushNeedsShortName(r, files, disk, rest);
  }

  // ---- pulling ----

  /** How sync_recv ends: with the file, with what the server said instead, or with the connection or local file lost. */
  datatype Pulled = Received(data: Bytes, rest: Bytes) | RemoteError(rest: Bytes) | Lost

  /** The loop of sync_recv; `here` is the client's disk, `count` the number of chunks written to it. */
  function ReceivePull(s: Bytes, data: Bytes, count: nat, here: Disk): Pulled
    decreases |s|
  {
    if |s| < 8 then Lost
    else
      var id, size := FrameId(s), FrameSize(s);
      if id == ID_DONE then Received(data, s[8..])
      else if id == ID_DATA then
        if size > SYNC_DATA_MAX || |s| < 8 + size || here.failsAt == Some(count) then Lost
        else ReceivePull(s[8 + size..], data + s[8..8 + size], count + 1, here)
      else if id == ID_FAIL then
        var n := if size > 256 then 256 else size;
        if |s| < 8 + n then Lost else RemoteError(s[8 + n..])
      else RemoteError(s[8..])
  }

  /** sync_recv: the local file is made once the server begins to send it. */
  function PullFile(s: Bytes, here: Disk): Pulled {
    if |s| >= 8 && (FrameId(s) == ID_DATA || FrameId(s) == ID_DONE) && !here.opens then Lost
    else ReceivePull(s, [], 0, here)
  }

  lemma {:induction false} PullReadsChunks(chunks: seq<Bytes>, data: Bytes, tail: Bytes, count: nat, here: Disk)
    requires Framed(chunks) && (here.failsAt.Some? ==> count <= here.failsAt.value)
    ensures ReceivePull(DataFrames(chunks) + tail, data, count, here) ==
            if here.failsAt.Some? && here.failsAt.value < count + |chunks| then Lost
            else ReceivePull(tail, data + Concat(chunks), count + |chunks|, here)
    decreases chunks
  {
    hide Frame, FrameId, FrameSize;
    if chunks == [] {
      assert DataFrames(chunks) + tail == tail && data + Concat(chunks) == data;
    } else {
      var c, s := chunks[0], DataFrames(chunks) + tail;
      var after := DataFrames(chunks[1..]) + tail;
      assert s == Frame(ID_DATA, |c|) + (c + after);
      FrameRoundTrip(ID_DATA, |c|, c + after);
      assert s[8..8 + |c|] == s[8..][..|c|] == c && s[8 + |c|..] == s[8..][|c|..] == after;
      if here.failsAt != Some(count) {
        PullReadsChunks(chunks[1..], data + c, tail, count + 1, here);
        assert data + c + Concat(chunks[1..]) == data + Concat(chunks);
      }
    }
  }

  /** Conversely, a file is received only from DATA messages that DONE ends, each of them written. */
  lemma {:induction false} PullReadsOnlyChunks(s: Bytes, data: Bytes, count: nat, here: Disk) returns (chunks: seq<Bytes>, stamp: Word)
    requires ReceivePull(s, data, count, here).Received?
    requires here.failsAt.Some? ==> count <= here.failsAt.value
    ensures IsTransfer(s, chunks, stamp, ReceivePull(s, data, count, here).rest)
    ensures here.failsAt.Some? ==> count + |chunks| <= here.failsAt.value
    decreases |s|
  {
    hide Frame, FrameId, FrameSize, DataFrames;
    var id, size, r := FrameId(s), FrameSize(s), ReceivePull(s, data, count, here);
    FrameOf(s);
    if id != ID_DONE {
      var c, after, rest := s[8..8 + size], s[8 + size..], [];
      rest, stamp := PullReadsOnlyChunks(after, data + c, count + 1, here);
      chunks := [c] + rest;
      FramesCons(c, rest);
      Rejoin(s, Frame(ID_DATA, size), c, DataFrames(rest), Frame(ID_DONE, stamp), r.rest);
    } else {
      chunks, stamp := [], size;
      FramesNil();
      assert s == s[..8] + s[8..] && [] + s[..8] == s[..8];
    }
  }

  /** A FAIL ends the loop; a short reason leaves the client at the next reply. */
  lemma PullFails(reason: Bytes, rest: Bytes, data: Bytes, count: nat, here: Disk)
    requires |reason| < WORD_SIZE
    ensures var p := ReceivePull(FailReply(reason) + rest, data, count, here);
            p.RemoteError? && (|reason| <= 256 ==> p.rest == rest)
  {
    hide Frame, FrameId, FrameSize;
    var s := FailReply(reason) + rest;
    assert s == Frame(ID_FAIL, |reason|) + (reason + rest);
    FrameRoundTrip(ID_FAIL, |reason|, reason + rest);
    assert |reason| <= 256 ==> s[8 + |reason|..] == s[8..][|reason|..] == rest;
  }

  lemma PullEnds(data: Bytes, stamp: Word, rest: Bytes, count: nat, here: Disk)
    ensures ReceivePull(Frame(ID_DONE, stamp) + rest, data, count, here) == Received(data, rest)
  {
    hide Frame, FrameId, FrameSize;
    FrameRoundTrip(ID_DONE, stamp, rest);
  }

  /** What a pull makes of a reply that begins with these chunks. */
  lemma PullTail(chunks: seq<Bytes>, id: Word, size: Word, body: Bytes, here: Disk)
    requires Framed(chunks)
    ensures PullFile(DataFrames(chunks) + (Frame(id, size) + body), here) ==
            if (chunks != [] || id == ID_DATA || id == ID_DONE) && !Stores(here, chunks) then Lost
            else ReceivePull(Frame(id, size) + body, Concat(chunks), |chunks|, here)
  {
    hide Frame, FrameId, FrameSize, ReceivePull, DataFrames;
    var tail := Frame(id, size) + body;
    var s := DataFrames(chunks) + tail;
    assert here.failsAt.Some? ==> here.failsAt.value >= 0;
    PullReadsChunks(chunks, [], tail, 0, here);
    assert [] + Concat(chunks) == Concat(chunks);
    if chunks == [] {
      FramesNil();
      assert s == tail;
      FrameRoundTrip(id, size, body);
    } else {
      var c, rest := chunks[0], chunks[1..];
      FramesCons(c, rest);
      assert chunks == [c] + rest;
      assert s == Frame(ID_DATA, |c|) + (c + (DataFrames(rest) + tail));
      FrameRoundTrip(ID_DATA, |c|, c + (DataFrames(rest) + tail));
    }
  }

  /**
   Whatever bytes reach the client: it receives a file if and only if they are DATA messages ended by DONE and its own
   disk takes each of them. The file is then all of their data.
   */
  lemma PullAllOrNothing(s: Bytes, here: Disk)
    ensures PullFile(s, here).Received? <==> exists chunks, stamp, rest :: IsTransfer(s, chunks, stamp, rest) && Stores(here, chunks)
    ensures forall chunks, stamp, rest :: IsTransfer(s, chunks, stamp, rest) ==>
              PullFile(s, here) == if Stores(here, chunks) then Received(Concat(chunks), rest) else Lost
  {
    hide Frame, FrameId, FrameSize, ReceivePull, DataFrames, Concat;
    forall chunks, stamp, rest | IsTransfer(s, chunks, stamp, rest)
      ensures PullFile(s, here) == if Stores(here, chunks) then Received(Concat(chunks), rest) else Lost
    {
      assert s == DataFrames(chunks) + (Frame(ID_DONE, stamp) + rest);
      PullTail(chunks, ID_DONE, stamp, rest, here);
      PullEnds(Concat(chunks), stamp, rest, |chunks|, here);
    }
    if PullFile(s, here).Received? {
      assert here.failsAt.Some? ==> here.failsAt.value >= 0;
      var chunks, stamp := PullReadsOnlyChunks(s, [], 0, here);
      assert IsTransfer(s, chunks, stamp, PullFile(s, here).rest);
    }
  }

  /**
   Chunks and then a message that is neither DATA nor DONE: the client takes it for a failure of the server, unless its
   own disk failed before. Of a FAIL it reads at most 256 bytes of the reason, and is lost if they do not come.
   */
  lemma PullRefused(chunks: seq<Bytes>, id: Word, size: Word, body: Bytes, here: Disk)
    requires Framed(chunks) && id != ID_DATA && id != ID_DONE && (chunks != [] ==> Stores(here, chunks))
    ensures var p := PullFile(DataFrames(chunks) + (Frame(id, size) + body), here);
            && (id != ID_FAIL ==> p == RemoteError(body))
            && (id == ID_FAIL && |body| < size && |body| < 256 ==> p == Lost)
            && (id == ID_FAIL && size <= 256 && size <= |body| ==> p == RemoteError(body[size..]))
            && (id == ID_FAIL && size > 256 && 256 <= |body| ==> p == RemoteError(body[256..]))
  {
    PullTail(chunks, id, size, body, here);
    hide Frame, FrameId, FrameSize, DataFrames, PullFile, Concat;
    var s := Frame(id, size) + body;
    FrameRoundTrip(id, size, body);
    assert forall n :: 0 <= n <= |body| ==> s[8 + n..] == s[8..][n..];
  }

  /** The client's loop over the pieces of what was read. */
  lemma PullReadsFile(read: Bytes, pieces: seq<nat>, tail: Bytes, rest: Bytes, here: Disk)
    requires here.failsAt.None?
    ensures var chunks := Split(read, pieces);
            ReceivePull(DataFrames(chunks) + tail + rest, [], 0, here) == ReceivePull(tail + rest, read, |chunks|, here)
  {
    hide ReceivePull, DataFrames, Split;
    var chunks := Split(read, pieces);
    assert DataFrames(chunks) + tail + rest == DataFrames(chunks) + (tail + rest);
    PullReadsChunks(chunks, [], tail + rest, 0, here);
    assert [] + Concat(chunks) == read;
  }

  /**
   With a working local disk: the client gets the server's file, however reads cut it, if and only if the server
   could open it and read it to its end; otherwise it reads the server's failure.
   */
  lemma PullGetsFile(files: Files, path: Path, disk: Disk, rest: Bytes, here: Disk)
    requires DiskOk(disk) && here.opens && here.failsAt.None?
    ensures var p := PullFile(Reply(files, Pull(path), disk) + rest, here);
            && (p.Received? <==> Readable(files, path, disk))
            && (p.Received? ==> p == Received(files[path].data, rest))
            && (!p.Received? ==> p.RemoteError? && (|disk.reason| <= 256 ==> p.rest == rest))
  {
    hide Frame, FrameId, FrameSize, FailReply, ReceivePull, DataFrames;
    if path !in files || !disk.opens {
      PullFails(disk.reason, rest, [], 0, here);
    } else {
      var data := files[path].data;
      var read, tail := BytesRead(disk, data), if ReadFails(disk, data) then FailReply(disk.reason) else Frame(ID_DONE, 0);
      PullReadsFile(read, disk.pieces, tail, rest, here);
      var n := |Split(read, disk.pieces)|;
      PullFails(disk.reason, rest, read, n, here);
      PullEnds(read, 0, rest, n, here);
    }
  }

  /** The server can open the file and read it to its end. */
  predicate Readable(files: Files, path: Path, disk: Disk) {
    path in files && disk.opens && !ReadFails(disk, files[path].data)
  }

  /** What sync_recv returns: 0 also after an error of the server, of which it only prints a message. */
  function PullCode(p: Pulled): int {
    if p.Lost? then -1 else 0
  }

  /** What is at the local path then: the file, or nothing. */
  function LocalFile(p: Pulled): Option<Bytes>
    requires !p.Lost?
  {
    if p.Received? then Some(p.data) else None
  }

  /**
   With a working local disk the code is 0 for every path the client may ask for. The file is there if and only if the
   server could open it and read it to its end; otherwise the local path is empty, whatever it held.
   */
  lemma PullCodeIsBlind(files: Files, path: Path, disk: Disk, rest: Bytes, more: Bytes, here: Disk)
    requires Sendable(Pull(path)) && DiskOk(disk) && here.opens && here.failsAt.None?
    ensures var o := ServeOne(RequestBytes(Pull(path)) + rest, files, disk);
            o.Done? && var p := PullFile(o.served.replies + more, here);
            && PullCode(p) == 0
            && LocalFile(p) == (if Readable(files, path, disk) then Some(files[path].data) else None)
  {
    hide ServeOne, Reply, PullFile, RequestBytes;
    RequestServed(Pull(path), files, disk, rest);
    PullGetsFile(files, path, disk, more, here);
  }

  /** A path that the server lacks: code 0, and no file. */
  lemma MissingPull(files: Files, path: Path, disk: Disk, here: Disk)
    requires Sendable(Pull(path)) && path !in files && DiskOk(disk) && here.opens && here.failsAt.None?
    ensures var o := ServeOne(RequestBytes(Pull(path)), files, disk);
            o.Done? && var p := PullFile(o.served.replies, here);
            p.RemoteError? && PullCode(p) == 0 && LocalFile(p) == None
  {
    hide ServeOne, Reply, PullFile, RequestBytes;
    var s := RequestBytes(Pull(path));
    assert s + [] == s;
    RequestServed(Pull(path), files, disk, []);
    PullGetsFile(files, path, disk, [], here);
    var replies := ServeOne(s, files, disk).served.replies;
    assert replies + [] == replies;
  }

  // ---- pipelined STAT ----

  /** What sync_finish_readtime learns of a file; all zero for a missing one. */
  datatype Info = Info(mode: Word, size: Word, time: Word)

  function InfoOf(files: Files, path: Path): Info {
    if path in files then
      Info((0x8000 + files[path].mode) % WORD_SIZE, |files[path].data| % WORD_SIZE, files[path].mtime)
    else Info(0, 0, 0)
  }

  function ReadInfo(s: Bytes): Option<(Info, Bytes)> {
    if |s| < 16 || FromLe32(s[0..4]) != ID_STAT then None
    else Some((Info(FromLe32(s[4..8]), FromLe32(s[8..12]), FromLe32(s[12..16])), s[16..]))
  }

  /** The second loop of copy_local_dir_remote reads one reply per file. */
  function ReadInfos(s: Bytes, n: nat): Option<seq<Info>> {
    if n == 0 then Some([])
    else
      match ReadInfo(s)
      case None => None
      case Some((info, rest)) =>
        match ReadInfos(rest, n - 1)
        case None => None
        case Some(infos) => Some([info] + infos)
  }

  function StatAll(paths: seq<Path>): (rs: seq<Request>)
    ensures |rs| == |paths| && forall k :: 0 <= k < |rs| ==> rs[k] == Stat(paths[k])
  {
    if paths == [] then [] else [Stat(paths[0])] + StatAll(paths[1..])
  }

  function Infos(files: Files, paths: seq<Path>): (infos: seq<Info>)
    ensures |infos| == |paths| && forall k :: 0 <= k < |infos| ==> infos[k] == InfoOf(files, paths[k])
  {
    if paths == [] then [] else [InfoOf(files, paths[0])] + Infos(files, paths[1..])
  }

  /** The file types of mode words. */
  lemma FileTypes(permissions: nat)
    requires permissions < 0x1000
    ensures IsRegular(0x8000 + permissions) && !IsLink(0x8000 + permissions)
    ensures IsLink(0xA000 + permissions) && !IsRegular(0xA000 + permissions)
    ensures !IsRegular(0) && !IsLink(0)
  {
  }

  /** STAT tells of a file its size, time and permissions and that it is regular; a missing file has mode 0. */
  lemma StatTells(files: Files, path: Path)
    requires path in files ==> files[path].mode < 0x1000 && |files[path].data| < WORD_SIZE
    ensures var i := InfoOf(files, path);
            && (path in files <==> IsRegular(i.mode)) && (path in files <==> i.mode != 0)
            && (path in files ==> i.mode % 0x1000 == files[path].mode && i.size == |files[path].data| && i.time == files[path].mtime)
  {
    if path in files {
      FileTypes(files[path].mode);
    }
  }

  lemma InfoRoundTrip(files: Files, path: Path, rest: Bytes)
    ensures ReadInfo(StatReply(files, path) + rest) == Some((InfoOf(files, path), rest))
  {
    hide Le32, FromLe32;
    var i, s := InfoOf(files, path), StatReply(files, path) + rest;
    assert StatReply(files, path) == Le32(ID_STAT) + Le32(i.mode) + Le32(i.size) + Le32(i.time);
    assert s[0..4] == Le32(ID_STAT) && s[4..8] == Le32(i.mode) && s[8..12] == Le32(i.size) && s[12..16] == Le32(i.time);
    assert s[16..] == rest;
    WordRoundTrip(ID_STAT);
    WordRoundTrip(i.mode);
    WordRoundTrip(i.size);
    WordRoundTrip(i.time);
  }

  /** The k-th reply to a pipeline of STATs is about the k-th file. */
  lemma {:induction false} StatsInOrder(paths: seq<Path>, files: Files, disks: seq<Disk>)
    requires DisksOk(disks)
    ensures ReadInfos(Perform(StatAll(paths), files, disks).replies, |paths|) == Some(Infos(files, paths))
    ensures Perform(StatAll(paths), files, disks).files == files
    decreases paths
  {
    hide StatReply, ReadInfo, InfoOf;
    if paths != [] {
      var rs, d := StatAll(paths), NextDisk(disks);
      assert rs[1..] == StatAll(paths[1..]);
      StatsInOrder(paths[1..], files, Later(disks));
      var later := Perform(rs[1..], files, Later(disks));
      SimpleReply(files, rs[0], d);
      InfoRoundTrip(files, paths[0], later.replies);
    }
  }
}
