/** From HTTP arguments to the worker's memory and back: the text that goes in
    and the text that comes out. */
module CommandPath {
  import opened Bytes
  import opened CommandText
  import opened WorkerMemory

  datatype Response = Pong | Done | MemoryData(data: seq<byte>) | Error(e: MemoryError)

  function DigitChar(d: nat): char
    requires d < 16
  {
    if d < 10 then ('0' as int + d) as char else ('a' as int + (d - 10)) as char
  }

  /** `format!("{n}")`. */
  function Decimal(n: nat): string {
    if n < 10 then [DigitChar(n)] else Decimal(n / 10) + [DigitChar(n % 10)]
  }

  /** `format!("{b:02x}")`. */
  function HexByte(b: byte): string {
    var n: int := b;
    [DigitChar(n / 16), DigitChar(n % 16)]
  }

  function Hex(data: seq<byte>): string {
    if data == [] then [] else Hex(data[..|data| - 1]) + HexByte(data[|data| - 1])
  }

  function GetLe16(data: seq<byte>): u16
    requires |data| == 2
  {
    var lo: int, hi: int := data[0], data[1];
    hi * 256 + lo
  }

  /** `response_to_string` for the responses of memory commands. */
  function ResponseToString(r: Response, message: string): string {
    match r
    case Pong => "pong" + SUCCESS_MARKER
    case Done => "ok" + SUCCESS_MARKER
    case MemoryData(data) =>
      (if |data| == 1 then Decimal(data[0]) else if |data| == 2 then Decimal(GetLe16(data)) else Hex(data))
      + SUCCESS_MARKER
    case Error(_) => "error:" + message
  }

  predicate IsMemoryCommand(c: WorkerCommand) {
    c.ReadMemory? || (c.WriteMemory? && |c.data| < TWO_32)
  }

  datatype Served = Served(ram: seq<byte>, response: Response)

  /** What the worker does with a memory command. */
  function Serve(ram: seq<byte>, c: WorkerCommand): (r: Served)
    requires IsMemoryCommand(c)
    ensures |r.ram| == |ram|
  {
    match c
    case ReadMemory(address, size) =>
      (match ReadResult(ram, address, size)
       case Ok(data) => Served(ram, MemoryData(data))
       case Err(e) => Served(ram, Error(e)))
    case WriteMemory(address, data) =>
      (match WriteResult(ram, address, data)
       case Ok(after) => Served(after, Done)
       case Err(e) => Served(ram, Error(e)))
  }

  method ServeOn(core: Core, c: WorkerCommand) returns (r: Response)
    requires IsMemoryCommand(c)
    modifies if core.ram == null then {} else {core.ram}
    ensures core.ram == null ==> r == Error(RamUnavailable)
    ensures core.ram != null ==> Served(core.ram[..], r) == Serve(old(core.ram[..]), c)
  {
    if c.ReadMemory? {
      var data := core.ReadMemory(c.address, c.size);
      r := if data.Ok? then MemoryData(data.value) else Error(data.error);
    } else {
      var done := core.WriteMemory(c.address, c.data);
      r := if done.Ok? then Done else Error(done.error);
    }
  }

  function ServeAll(ram: seq<byte>, cs: seq<WorkerCommand>): (r: seq<byte>)
    requires forall i :: 0 <= i < |cs| ==> IsMemoryCommand(cs[i])
    ensures |r| == |ram|
  {
    if cs == [] then ram else Serve(ServeAll(ram, cs[..|cs| - 1]), cs[|cs| - 1]).ram
  }

  /** No write among `cs` touches the `size` bytes at `address`. */
  predicate LeavesAlone(cs: seq<WorkerCommand>, address: u32, size: nat) {
    forall i :: 0 <= i < |cs| && cs[i].WriteMemory? ==> Disjoint(cs[i].address, |cs[i].data|, address, size)
  }

  lemma {:induction false} BytesStay(ram: seq<byte>, cs: seq<WorkerCommand>, address: u32, size: u32)
    requires forall i :: 0 <= i < |cs| ==> IsMemoryCommand(cs[i])
    requires LeavesAlone(cs, address, size)
    ensures ReadResult(ServeAll(ram, cs), address, size) == ReadResult(ram, address, size)
  {
    hide ReadResult, WriteResult, Disjoint;
    if cs == [] {
    } else {
      var n := |cs| - 1;
      BytesStay(ram, cs[..n], address, size);
      if cs[n].WriteMemory? {
        WriteIsLocal(ServeAll(ram, cs[..n]), cs[n].address, cs[n].data, address, size);
      }
    }
  }

  /** After a write that fits, any later read of the same bytes through any alias
      returns the written data, as long as no write in between touches them. */
  lemma WriteThenRead(ram: seq<byte>, address: u32, data: seq<byte>, between: seq<WorkerCommand>, alias: u32)
    requires 0 < |data| < TWO_32 && Normalise(address) + |data| <= |ram| && Normalise(alias) == Normalise(address)
    requires forall i :: 0 <= i < |between| ==> IsMemoryCommand(between[i])
    requires LeavesAlone(between, address, |data|)
    requires Normalise(address) + |data| < USIZE_LIMIT
    ensures Serve(ram, WriteMemory(address, data)).response == Done
    ensures Serve(ServeAll(Serve(ram, WriteMemory(address, data)).ram, between), ReadMemory(alias, |data|)).response
         == MemoryData(data)
  {
    hide LeavesAlone;
    var written := Serve(ram, WriteMemory(address, data)).ram;
    BytesStay(written, between, address, |data|);
    ReadAfterWrite(ram, address, alias, data);
    ReadAfterWrite(ram, address, address, data);
    assert SystemRamRange(alias, |data|, |ram|) == SystemRamRange(address, |data|, |ram|);
  }

  lemma {:induction false} ServeAppend(ram: seq<byte>, a: seq<WorkerCommand>, b: seq<WorkerCommand>)
    requires forall i :: 0 <= i < |a| ==> IsMemoryCommand(a[i])
    requires forall i :: 0 <= i < |b| ==> IsMemoryCommand(b[i])
    ensures ServeAll(ram, a + b) == ServeAll(ServeAll(ram, a), b)
  {
    hide Serve;
    if b == [] {
      assert a + b == a;
    } else {
      var n := |b| - 1;
      ServeAppend(ram, a, b[..n]);
      assert (a + b)[..|a + b| - 1] == a + b[..n];
    }
  }

  /** In any run of memory commands, a read returns the data of the last write to its
      bytes, whatever was written there before. */
  lemma LastWriteRead(ram: seq<byte>, before: seq<WorkerCommand>, address: u32, data: seq<byte>,
                      between: seq<WorkerCommand>, alias: u32)
    requires 0 < |data| < TWO_32 && Normalise(address) + |data| <= |ram| && Normalise(alias) == Normalise(address)
    requires forall i :: 0 <= i < |before| ==> IsMemoryCommand(before[i])
    requires forall i :: 0 <= i < |between| ==> IsMemoryCommand(between[i])
    requires LeavesAlone(between, address, |data|) && Normalise(address) + |data| < USIZE_LIMIT
    ensures Serve(ServeAll(ram, before + [WriteMemory(address, data)] + between), ReadMemory(alias, |data|)).response
         == MemoryData(data)
  {
    var w := WriteMemory(address, data);
    var mid := ServeAll(ram, before);
    ServeAppend(ram, before + [w], between);
    ServeAppend(ram, before, [w]);
    assert [w][..0] == [] && ServeAll(mid, [w]) == Serve(mid, w).ram;
    hide Serve, LeavesAlone;
    WriteThenRead(mid, address, data, between, alias);
  }

  lemma DigitCharIs(d: nat, radix: nat)
    requires d < radix <= 16
    ensures Digit(DigitChar(d), radix) == Some(d)
  {
  }

  /** Decimal text denotes the number it was printed from. */
  lemma {:induction false} DecimalDenotes(n: nat)
    ensures Decimal(n) != [] && AllDigits(Decimal(n), 10) && Value(Decimal(n), 10) == n
    ensures |Decimal(n)| > 1 ==> Decimal(n)[0] != '0'
  {
    var s := Decimal(n);
    DigitCharIs(n % 10, 10);
    if n < 10 {
      assert s[..0] == [] && n % 10 == n;
    } else {
      DecimalDenotes(n / 10);
      assert s[..|s| - 1] == Decimal(n / 10);
      assert n == n / 10 * 10 + n % 10;
    }
  }

  /** Two hex digits denote their byte. */
  lemma HexByteDenotes(b: byte)
    ensures AllDigits(HexByte(b), 16) && Value(HexByte(b), 16) == b
    ensures |HexByte(b)| == 2 && forall c :: c in HexByte(b) ==> '0' <= c <= '9' || 'a' <= c <= 'f'
  {
    var n: int := b;
    var s := HexByte(b);
    DigitCharIs(n / 16, 16);
    DigitCharIs(n % 16, 16);
    assert s[..1] == [DigitChar(n / 16)];
    assert s[..1][..0] == [];
    assert Value(s[..1], 16) == n / 16;
  }

  /** Byte `i` of a hex dump is its `i`-th pair of digits. */
  lemma {:induction false} HexAt(data: seq<byte>, i: nat)
    requires i < |data|
    ensures |Hex(data)| == 2 * |data| && Hex(data)[2 * i..2 * i + 2] == HexByte(data[i])
  {
    var init, b := data[..|data| - 1], data[|data| - 1];
    HexLength(init);
    HexSnoc(data);
    hide Hex, HexByte;
    if i == |init| {
      PairBehind(Hex(init), HexByte(b));
    } else {
      HexAt(init, i);
      PairWithin(Hex(init), HexByte(b), 2 * i);
    }
  }

  lemma HexSnoc(data: seq<byte>)
    requires data != []
    ensures Hex(data) == Hex(data[..|data| - 1]) + HexByte(data[|data| - 1]) && |HexByte(data[|data| - 1])| == 2
  {
  }

  lemma PairWithin(s: string, t: string, at: nat)
    requires at + 2 <= |s|
    ensures (s + t)[at..at + 2] == s[at..at + 2]
  {
  }

  lemma PairBehind(s: string, t: string)
    requires |t| == 2
    ensures (s + t)[|s|..|s| + 2] == t
  {
  }

  lemma {:induction false} HexLength(data: seq<byte>)
    ensures |Hex(data)| == 2 * |data|
  {
    if data == [] {
    } else {
      HexLength(data[..|data| - 1]);
      HexSnoc(data);
      hide HexByte;
    }
  }

  lemma NamesOfMemoryCommands()
    ensures NameOf("core.write8") == Some(Write8) && NameOf("core.read8") == Some(Read8)
    ensures NameOf("core.write16") == Some(Write16) && NameOf("core.read16") == Some(Read16)
    ensures NameOf("core.write32") == Some(Write32) && NameOf("core.readRange") == Some(ReadRange)
    ensures ',' !in "core.write8" && ',' !in "core.read8" && ',' !in "core.write16" && ',' !in "core.read16"
    ensures ',' !in "core.write32" && ',' !in "core.readRange"
  {
  }

  /** An accepted request parsed by the worker, for the endpoints of memory access. */
  lemma WriteRequest(name: string, address: string, value: string)
    requires name in {"core.write8", "core.write16", "core.write32"}
    requires ValidateCommand(Format(name, [address, value])).Ok?
    ensures IsNumericArg(address) && IsNumericArg(value)
    ensures NumericValue(address) < TWO_32 && NumericValue(value) < TWO_32 ==>
              ParseMessage(Format(name, [address, value]))
              == Some(WriteMemory(NumericValue(address), ValueBytes(NameOf(name).value, NumericValue(value))))
  {
    hide ParseMessage, NumericValue, IsNumericArg, ValidateCommand, Format;
    NamesOfMemoryCommands();
    EndpointRunsItsOwnCommand(name, [address, value]);
  }

  lemma ReadRequest(name: string, address: string)
    requires name in {"core.read8", "core.read16"}
    requires ValidateCommand(Format(name, [address])).Ok?
    ensures IsNumericArg(address)
    ensures NumericValue(address) < TWO_32 ==>
              ParseMessage(Format(name, [address]))
              == Some(ReadMemory(NumericValue(address), if name == "core.read8" then 1 else 2))
  {
    hide ParseMessage, NumericValue, IsNumericArg, ValidateCommand, Format;
    NamesOfMemoryCommands();
    EndpointRunsItsOwnCommand(name, [address]);
  }

  lemma RangeRequest(address: string, length: string)
    requires ValidateCommand(Format("core.readRange", [address, length])).Ok?
    ensures IsNumericArg(address) && IsDecimalArg(length) && IsNumericArg(length)
    ensures NumericValue(address) < TWO_32 && NumericValue(length) < TWO_32 ==>
              ParseMessage(Format("core.readRange", [address, length]))
              == Some(ReadMemory(NumericValue(address), NumericValue(length)))
  {
    hide ParseMessage, NumericValue, IsNumericArg, ValidateCommand, Format, IsDecimalArg, Value;
    NamesOfMemoryCommands();
    EndpointRunsItsOwnCommand("core.readRange", [address, length]);
    DecimalValue(length);
  }

  /** The reply of a later read, as text, after an accepted write. */
  ghost function LaterReply(ram: seq<byte>, write: string, between: seq<WorkerCommand>, read: string): string
    requires ParseMessage(write).Some? && IsMemoryCommand(ParseMessage(write).value)
    requires ParseMessage(read).Some? && IsMemoryCommand(ParseMessage(read).value)
    requires forall i :: 0 <= i < |between| ==> IsMemoryCommand(between[i])
  {
    var after := ServeAll(Serve(ram, ParseMessage(write).value).ram, between);
    ResponseToString(Serve(after, ParseMessage(read).value).response, "")
  }

  lemma Fits(address: u32, width: nat)
    requires width <= 4
    ensures Normalise(address) + width < USIZE_LIMIT
  {
  }

  /** `write8` then `read8`: the reply is the value modulo 256, in decimal. */
  lemma Write8Read8(ram: seq<byte>, address: string, value: string, between: seq<WorkerCommand>, alias: string)
    requires ValidateCommand(Format("core.write8", [address, value])).Ok?
    requires ValidateCommand(Format("core.read8", [alias])).Ok?
    requires IsNumericArg(address) && IsNumericArg(value) && IsNumericArg(alias)
    requires NumericValue(address) < 0x1_0000_0000 && NumericValue(value) < 0x1_0000_0000
    requires NumericValue(alias) < 0x1_0000_0000
    requires Normalise(NumericValue(address)) == Normalise(NumericValue(alias))
    requires Normalise(NumericValue(address)) + 1 <= |ram|
    requires forall i :: 0 <= i < |between| ==> IsMemoryCommand(between[i])
    requires LeavesAlone(between, NumericValue(address), 1)
    ensures ParseMessage(Format("core.write8", [address, value])).Some?
    ensures IsMemoryCommand(ParseMessage(Format("core.write8", [address, value])).value)
    ensures ParseMessage(Format("core.read8", [alias])).Some?
    ensures IsMemoryCommand(ParseMessage(Format("core.read8", [alias])).value)
    ensures LaterReply(ram, Format("core.write8", [address, value]), between, Format("core.read8", [alias]))
         == Decimal(NumericValue(value) % 256) + "<|SUCCESS|>"
  {
    hide ParseMessage, NumericValue, IsNumericArg, ValidateCommand, Format, Serve, LeavesAlone;
    WriteRequest("core.write8", address, value);
    ReadRequest("core.read8", alias);
    NamesOfMemoryCommands();
    var a := NumericValue(address);
    Fits(a, 1);
    WriteThenRead(ram, a, [NumericValue(value) % 256], between, NumericValue(alias));
  }

  /** `write16` then `read16`: the value modulo 65536, in decimal. */
  lemma Write16Read16(ram: seq<byte>, address: string, value: string, between: seq<WorkerCommand>, alias: string)
    requires ValidateCommand(Format("core.write16", [address, value])).Ok?
    requires ValidateCommand(Format("core.read16", [alias])).Ok?
    requires IsNumericArg(address) && IsNumericArg(value) && IsNumericArg(alias)
    requires NumericValue(address) < 0x1_0000_0000 && NumericValue(value) < 0x1_0000_0000
    requires NumericValue(alias) < 0x1_0000_0000
    requires Normalise(NumericValue(address)) == Normalise(NumericValue(alias))
    requires Normalise(NumericValue(address)) + 2 <= |ram|
    requires forall i :: 0 <= i < |between| ==> IsMemoryCommand(between[i])
    requires LeavesAlone(between, NumericValue(address), 2)
    ensures ParseMessage(Format("core.write16", [address, value])).Some?
    ensures IsMemoryCommand(ParseMessage(Format("core.write16", [address, value])).value)
    ensures ParseMessage(Format("core.read16", [alias])).Some?
    ensures IsMemoryCommand(ParseMessage(Format("core.read16", [alias])).value)
    ensures LaterReply(ram, Format("core.write16", [address, value]), between, Format("core.read16", [alias]))
         == Decimal(NumericValue(value) % 0x1_0000) + "<|SUCCESS|>"
  {
    hide ParseMessage, NumericValue, IsNumericArg, ValidateCommand, Format, Serve, LeavesAlone;
    WriteRequest("core.write16", address, value);
    ReadRequest("core.read16", alias);
    NamesOfMemoryCommands();
    var a, v := NumericValue(address), NumericValue(value) % 0x1_0000;
    Fits(a, 2);
    WriteThenRead(ram, a, Le16(v), between, NumericValue(alias));
    assert GetLe16(Le16(v)) == v;
  }

  /** `write32` then a range read of length 4: the value's little-endian bytes, in hex. */
  lemma Write32ReadRange(ram: seq<byte>, address: string, value: string, between: seq<WorkerCommand>,
                         alias: string, length: string)
    requires ValidateCommand(Format("core.write32", [address, value])).Ok?
    requires ValidateCommand(Format("core.readRange", [alias, length])).Ok?
    requires IsNumericArg(address) && IsNumericArg(value) && IsNumericArg(alias)
    requires NumericValue(address) < 0x1_0000_0000 && NumericValue(value) < 0x1_0000_0000
    requires NumericValue(alias) < 0x1_0000_0000
    requires Normalise(NumericValue(address)) == Normalise(NumericValue(alias))
    requires Normalise(NumericValue(address)) + 4 <= |ram|
    requires forall i :: 0 <= i < |between| ==> IsMemoryCommand(between[i])
    requires LeavesAlone(between, NumericValue(address), 4)
    requires IsNumericArg(length) && NumericValue(length) == 4
    ensures ParseMessage(Format("core.write32", [address, value])).Some?
    ensures IsMemoryCommand(ParseMessage(Format("core.write32", [address, value])).value)
    ensures ParseMessage(Format("core.readRange", [alias, length])).Some?
    ensures IsMemoryCommand(ParseMessage(Format("core.readRange", [alias, length])).value)
    ensures LaterReply(ram, Format("core.write32", [address, value]), between,
                       Format("core.readRange", [alias, length]))
         == Hex(Le32(NumericValue(value))) + "<|SUCCESS|>"
  {
    hide ParseMessage, NumericValue, IsNumericArg, ValidateCommand, Format, Serve, LeavesAlone;
    WriteRequest("core.write32", address, value);
    RangeRequest(alias, length);
    NamesOfMemoryCommands();
    var a := NumericValue(address);
    Fits(a, 4);
    WriteThenRead(ram, a, Le32(NumericValue(value)), between, NumericValue(alias));
  }

  /** The reply to a write, and to any memory command whose bytes are not all in RAM. */
  lemma MemoryReplies(ram: seq<byte>, k: nat, data: seq<byte>, size: u32, message: string)
    requires k < 0x0200_0000 && |data| < 0x1_0000_0000
    ensures ResponseToString(Serve(ram, WriteMemory(k, data)).response, message)
         == if k + |data| <= |ram| then "ok" + "<|SUCCESS|>" else "error:" + message
    ensures k + size > |ram| ==>
              ResponseToString(Serve(ram, ReadMemory(k, size)).response, message) == "error:" + message
    ensures ResponseToString(Pong, message) == "pong" + "<|SUCCESS|>"
  {
    BytesWritten(ram, k, data);
    BytesRead(ram, k, size);
    hide ReadResult, WriteResult;
  }
}
