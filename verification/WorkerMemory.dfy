/** Reading and writing system RAM: src/bin/worker/core.rs. */
module WorkerMemory {
  import opened Bytes

  const GBA_SYSTEM_RAM_BASE: u32 := 0x0200_0000
  const USIZE_LIMIT: nat := 0x1_0000_0000_0000_0000

  datatype MemoryError = RamUnavailable | RangeOverflow | OutsideRam

  datatype Span = Span(start: nat, end: nat)

  /** Absolute and relative addresses of the same byte. */
  function Normalise(address: u32): nat {
    if address >= GBA_SYSTEM_RAM_BASE then address - GBA_SYSTEM_RAM_BASE else address
  }

  function SystemRamRange(address: u32, size: u32, memorySize: nat): (r: Result<Span, MemoryError>)
    ensures r.Ok? ==> r.value.start == Normalise(address) && r.value.end == r.value.start + size <= memorySize
  {
    var start: nat := Normalise(address);
    var end: nat := start + size;
    if end >= USIZE_LIMIT then Err(RangeOverflow)
    else if start > memorySize || end > memorySize then Err(OutsideRam)
    else Ok(Span(start, end))
  }

  function ReadResult(ram: seq<byte>, address: u32, size: u32): Result<seq<byte>, MemoryError> {
    match SystemRamRange(address, size, |ram|)
    case Err(e) => Err(e)
    case Ok(span) => Ok(ram[span.start..span.end])
  }

  function WriteResult(ram: seq<byte>, address: u32, data: seq<byte>): (r: Result<seq<byte>, MemoryError>)
    requires |data| < TWO_32
    ensures r.Ok? ==> |r.value| == |ram|
  {
    match SystemRamRange(address, |data|, |ram|)
    case Err(e) => Err(e)
    case Ok(span) => Ok(ram[..span.start] + data + ram[span.end..])
  }

  /** The emulator core's memory, as the worker sees it. */
  class Core {
    const ram: array?<byte>

    constructor (ram: array?<byte>)
      ensures this.ram == ram
    {
      this.ram := ram;
    }

    method ReadMemory(address: u32, size: u32) returns (r: Result<seq<byte>, MemoryError>)
      ensures r == if ram == null then Err(RamUnavailable) else ReadResult(ram[..], address, size)
    {
      if ram == null {
        return Err(RamUnavailable);
      }
      var range := SystemRamRange(address, size, ram.Length);
      if range.Err? {
        return Err(range.error);
      }
      r := Ok(ram[range.value.start..range.value.end]);
    }

    method WriteMemory(address: u32, data: seq<byte>) returns (r: Result<(), MemoryError>)
      requires |data| < TWO_32
      modifies if ram == null then {} else {ram}
      ensures ram == null ==> r == Err(RamUnavailable)
      ensures ram != null ==>
                var after := WriteResult(old(ram[..]), address, data);
                && (r.Ok? <==> after.Ok?) && (r.Err? ==> r.error == after.error)
                && ram[..] == if after.Ok? then after.value else old(ram[..])
    {
      if ram == null {
        return Err(RamUnavailable);
      }
      var range := SystemRamRange(address, |data|, ram.Length);
      if range.Err? {
        return Err(range.error);
      }
      var start := range.value.start;
      forall i | 0 <= i < |data| {
        ram[start + i] := data[i];
      }
      r := Ok(());
    }
  }

  /** A read returns what was written to the same bytes, whichever alias it uses. */
  lemma ReadAfterWrite(ram: seq<byte>, address: u32, alias: u32, data: seq<byte>)
    requires |data| < TWO_32 && Normalise(address) == Normalise(alias)
    ensures WriteResult(ram, address, data).Ok? ==>
              ReadResult(WriteResult(ram, address, data).value, alias, |data|) == Ok(data)
  {
  }

  predicate Disjoint(a: u32, m: nat, b: u32, n: nat) {
    Normalise(a) + m <= Normalise(b) || Normalise(b) + n <= Normalise(a)
  }

  predicate InRange(k: nat, a: u32, n: nat) {
    Normalise(a) <= k < Normalise(a) + n
  }

  /** Two ranges are disjoint exactly when no byte of RAM lies in both. */
  lemma DisjointIff(a: u32, m: nat, b: u32, n: nat)
    requires m > 0 && n > 0
    ensures Disjoint(a, m, b, n) <==> forall k :: InRange(k, a, m) ==> !InRange(k, b, n)
  {
    if !Disjoint(a, m, b, n) {
      var k := if Normalise(a) <= Normalise(b) then Normalise(b) else Normalise(a);
      assert InRange(k, a, m) && InRange(k, b, n);
    }
  }

  /** A write leaves every disjoint range as it was. */
  lemma WriteIsLocal(ram: seq<byte>, address: u32, data: seq<byte>, other: u32, size: u32)
    requires |data| < TWO_32 && Disjoint(address, |data|, other, size)
    ensures WriteResult(ram, address, data).Ok? ==>
              ReadResult(WriteResult(ram, address, data).value, other, size) == ReadResult(ram, other, size)
  {
    var w := WriteResult(ram, address, data);
    if w.Ok? && SystemRamRange(other, size, |ram|).Ok? {
      var s := Normalise(other);
      assert w.value[s..s + size] == ram[s..s + size];
    }
  }

  /** Which bytes of RAM a read returns: those at a small address itself, or at its
      distance from 0x0200_0000. It fails exactly when they are not all there. */
  lemma BytesRead(ram: seq<byte>, k: nat, size: u32)
    requires k < 0x0200_0000 || k + 0x0200_0000 < 0x1_0000_0000
    ensures k + size <= |ram| && k < 0x0200_0000 ==> ReadResult(ram, k, size) == Ok(ram[k..k + size])
    ensures k + size <= |ram| && k + 0x0200_0000 < 0x1_0000_0000 ==>
              ReadResult(ram, 0x0200_0000 + k, size) == Ok(ram[k..k + size])
    ensures k + size > |ram| && k < 0x0200_0000 ==> ReadResult(ram, k, size) == Err(OutsideRam)
    ensures k + size > |ram| && k + 0x0200_0000 < 0x1_0000_0000 ==>
              ReadResult(ram, 0x0200_0000 + k, size) == Err(OutsideRam)
  {
  }

  /** Which bytes a write replaces, and when it fails. */
  lemma BytesWritten(ram: seq<byte>, k: nat, data: seq<byte>)
    requires |data| < 0x1_0000_0000 && (k < 0x0200_0000 || k + 0x0200_0000 < 0x1_0000_0000)
    ensures k + |data| <= |ram| && k < 0x0200_0000 ==>
              WriteResult(ram, k, data) == Ok(ram[..k] + data + ram[k + |data|..])
    ensures k + |data| <= |ram| && k + 0x0200_0000 < 0x1_0000_0000 ==>
              WriteResult(ram, 0x0200_0000 + k, data) == Ok(ram[..k] + data + ram[k + |data|..])
    ensures k + |data| > |ram| && k < 0x0200_0000 ==> WriteResult(ram, k, data) == Err(OutsideRam)
    ensures k + |data| > |ram| && k + 0x0200_0000 < 0x1_0000_0000 ==>
              WriteResult(ram, 0x0200_0000 + k, data) == Err(OutsideRam)
  {
  }

  /** Exactly which addresses name the same byte: equal ones, and an offset below the
      base with its absolute form. */
  lemma AliasesIff(a: u32, b: u32)
    ensures Normalise(a) == Normalise(b) <==>
            || a == b
            || (a < 0x0200_0000 && b == 0x0200_0000 + a)
            || (b < 0x0200_0000 && a == 0x0200_0000 + b)
  {
  }
}
