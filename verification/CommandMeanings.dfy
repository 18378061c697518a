/** The command texts in plain letters and numbers: which texts are accepted, and what
    each of them makes the worker do. */
module CommandMeanings {
  import opened Bytes
  import opened CommandText

  predicate Decimals(s: string) {
    |s| > 0 && forall i :: 0 <= i < |s| ==> '0' <= s[i] <= '9'
  }

  predicate Number(s: string) {
    || Decimals(s)
    || (&& |s| > 2 && s[0] == '0' && s[1] == 'x'
        && forall i :: 2 <= i < |s| ==> '0' <= s[i] <= '9' || 'a' <= s[i] <= 'f' || 'A' <= s[i] <= 'F')
  }

  predicate Button(s: string) {
    || s == "A" || s == "B" || s == "L" || s == "R" || s == "Start" || s == "Select"
    || s == "Up" || s == "Down" || s == "Left" || s == "Right"
  }

  /** The value of one digit. */
  lemma DigitIs(c: char, radix: nat)
    requires radix == 10 || radix == 16
    ensures '0' <= c <= '9' ==> Digit(c, radix) == Some(c as int - 48)
    ensures 'a' <= c <= 'f' ==> Digit(c, radix) == if radix == 16 then Some(c as int - 87) else None
    ensures 'A' <= c <= 'F' ==> Digit(c, radix) == if radix == 16 then Some(c as int - 55) else None
    ensures !('0' <= c <= '9' || 'a' <= c <= 'f' || 'A' <= c <= 'F') ==> Digit(c, radix) == None
  {
  }

  lemma NumberIs(s: string)
    ensures IsDecimalArg(s) <==> Decimals(s)
    ensures IsNumericArg(s) <==> Number(s)
    ensures IsValidButton(s) <==> Button(s)
  {
    assert |"0x"| == 2 && "0x"[0] == '0' && "0x"[1] == 'x';
    if |s| >= 2 {
      assert "0x" <= s <==> s[0] == '0' && s[1] == 'x';
    }
  }

  /** Name and arguments the validator lets through. */
  predicate AcceptedParts(parts: seq<string>) {
    || (|parts| == 2 && (parts[0] == "core.read8" || parts[0] == "core.read16") && Number(parts[1]))
    || (|parts| == 3 && parts[0] == "core.readRange" && Number(parts[1]) && Decimals(parts[2]))
    || (|parts| == 3 && (parts[0] == "core.write8" || parts[0] == "core.write16" || parts[0] == "core.write32")
        && Number(parts[1]) && Number(parts[2]))
    || (|parts| == 2 && (parts[0] == "core.saveStateSlot" || parts[0] == "core.loadStateSlot") && Decimals(parts[1]))
    || (|parts| == 1 && (parts[0] == "core.reset" || parts[0] == "core.currentFrame"))
    || (|parts| == 2 && parts[0] == "mgba-http.button.tap" && Button(parts[1]))
    || (|parts| == 3 && parts[0] == "mgba-http.button.hold" && Button(parts[1]) && Decimals(parts[2]))
  }

  /** Exactly which texts the validator accepts. */
  lemma AcceptedIff(text: string)
    ensures ValidateCommand(text).Ok? <==>
            && |text| >= 7 && text[|text| - 7..] == "<|END|>"
            && AcceptedParts(Split(text[..|text| - 7]))
  {
    hide Split, NameOf, CheckArgs, AcceptedParts;
    assert |TERMINATION_MARKER| == 7;
    if |text| >= 7 && text[|text| - 7..] == "<|END|>" {
      PartsAcceptedIff(Split(text[..|text| - 7]));
    }
  }

  /** The names, letter by letter. */
  lemma NameIff(s: string)
    ensures NameOf(s) == Some(Read8) <==> s == "core.read8"
    ensures NameOf(s) == Some(Read16) <==> s == "core.read16"
    ensures NameOf(s) == Some(ReadRange) <==> s == "core.readRange"
    ensures NameOf(s) == Some(Write8) <==> s == "core.write8"
    ensures NameOf(s) == Some(Write16) <==> s == "core.write16"
    ensures NameOf(s) == Some(Write32) <==> s == "core.write32"
    ensures NameOf(s) == Some(SaveStateSlot) <==> s == "core.saveStateSlot"
    ensures NameOf(s) == Some(LoadStateSlot) <==> s == "core.loadStateSlot"
    ensures NameOf(s) == Some(CoreReset) <==> s == "core.reset"
    ensures NameOf(s) == Some(CurrentFrame) <==> s == "core.currentFrame"
    ensures NameOf(s) == Some(Tap) <==> s == "mgba-http.button.tap"
    ensures NameOf(s) == Some(Hold) <==> s == "mgba-http.button.hold"
  {
  }

  lemma PartsAcceptedIff(parts: seq<string>)
    requires parts != []
    ensures AcceptedParts(parts) <==>
            NameOf(parts[0]).Some? && CheckArgs(NameOf(parts[0]).value, parts[1..]).Ok?
  {
    hide NameOf, CheckArgs, AcceptedParts;
    if |parts| == 1 {
      NoArgsAcceptedIff(parts[0]);
      assert parts == [parts[0]] && parts[1..] == [];
    } else if |parts| == 2 {
      OneArgAcceptedIff(parts[0], parts[1]);
      assert parts == [parts[0], parts[1]] && parts[1..] == [parts[1]];
    } else if |parts| == 3 {
      TwoArgsAcceptedIff(parts[0], parts[1], parts[2]);
      assert parts == [parts[0], parts[1], parts[2]] && parts[1..] == [parts[1], parts[2]];
    } else {
      TooManyArgs(parts);
    }
  }

  ghost predicate NamedOk(name: string, args: seq<string>) {
    NameOf(name).Some? && CheckArgs(NameOf(name).value, args).Ok?
  }

  lemma NoArgsAcceptedIff(name: string)
    ensures AcceptedParts([name]) <==> NamedOk(name, [])
  {
    NameIff(name);
    hide NameOf;
  }

  lemma OneArgAcceptedIff(name: string, a: string)
    ensures AcceptedParts([name, a]) <==> NamedOk(name, [a])
  {
    NameIff(name);
    NumberIs(a);
    hide NameOf, Number, Decimals, Button, IsDecimalArg, IsNumericArg, IsValidButton;
  }

  lemma TwoArgsAcceptedIff(name: string, a: string, b: string)
    ensures AcceptedParts([name, a, b]) <==> NamedOk(name, [a, b])
  {
    NameIff(name);
    NumberIs(a);
    NumberIs(b);
    hide NameOf, Number, Decimals, Button, IsDecimalArg, IsNumericArg, IsValidButton;
  }

  lemma TooManyArgs(parts: seq<string>)
    requires |parts| > 3
    ensures !AcceptedParts(parts) && !NamedOk(parts[0], parts[1..])
  {
    hide NameOf, Number, Decimals, Button, IsDecimalArg, IsNumericArg, IsValidButton;
  }

  // ---------- What each text means ----------

  /** A message of a comma-free name and comma-free arguments. */
  lemma Parsed(name: string, args: seq<string>)
    requires CommaFree([name] + args) && |args| <= 2
    ensures ParseMessage(Format(name, args)) ==
            if NameOf(name).Some? then ParseArgs(NameOf(name).value, args) else None
  {
    hide NameOf, ParseArgs, Split, Body, StripSuffix;
    StripFormatted(name, args);
    SplitBody(name, args);
    assert ([name] + args)[1..] == args;
  }

  lemma NoArgs(name: string)
    ensures Format(name, []) == name + "<|END|>"
  {
  }

  lemma OneArg(name: string, a: string)
    ensures Format(name, [a]) == name + "," + a + "<|END|>"
  {
    assert [a][..0] == [] && Body(name, [a]) == Body(name, []) + [','] + a;
  }

  lemma TwoArgs(name: string, a: string, b: string)
    ensures Format(name, [a, b]) == name + "," + a + "," + b + "<|END|>"
  {
    assert [a][..0] == [] && Body(name, [a]) == Body(name, []) + [','] + a;
    assert [a, b][..1] == [a] && Body(name, [a, b]) == Body(name, [a]) + [','] + b;
  }

  lemma DecimalsCommaFree(s: string)
    requires Number(s)
    ensures ',' !in s
  {
  }

  /** Commands without arguments. */
  lemma PlainMeanings()
    ensures ParseMessage("core.currentFrame" + "<|END|>") == Some(GetCurrentFrame)
    ensures ParseMessage("core.screenshot" + "<|END|>") == Some(TakeScreenshot)
    ensures ParseMessage("core.reset" + "<|END|>") == Some(Reset)
    ensures ParseMessage("restart" + "<|END|>") == Some(Reset)
    ensures ParseMessage("health" + "<|END|>") == Some(Ping)
  {
    hide NameOf, ParseMessage;
    OtherNames();
    NoArgsParsed("core.currentFrame");
    NoArgsParsed("core.screenshot");
    NoArgsParsed("core.reset");
    NoArgsParsed("restart");
    NoArgsParsed("health");
  }

  lemma NoArgsParsed(name: string)
    requires ',' !in name
    ensures ParseMessage(name + "<|END|>") ==
            if NameOf(name).Some? then ParseArgs(NameOf(name).value, []) else None
  {
    hide NameOf, ParseMessage, ParseArgs;
    NoArgs(name);
    assert [name] + [] == [name];
    Parsed(name, []);
  }

  lemma OtherNames()
    ensures NameOf("core.currentFrame") == Some(CurrentFrame) && NameOf("core.screenshot") == Some(Screenshot)
    ensures NameOf("core.reset") == Some(CoreReset) && NameOf("restart") == Some(Restart)
    ensures NameOf("health") == Some(Health)
    ensures ',' !in "core.currentFrame" && ',' !in "core.screenshot" && ',' !in "core.reset"
    ensures ',' !in "restart" && ',' !in "health"
  {
  }

  lemma SlotAndButtonNames()
    ensures NameOf("core.saveStateSlot") == Some(SaveStateSlot) && NameOf("core.loadStateSlot") == Some(LoadStateSlot)
    ensures NameOf("mgba-http.button.tap") == Some(Tap) && NameOf("mgba-http.button.hold") == Some(Hold)
    ensures ',' !in "core.saveStateSlot" && ',' !in "core.loadStateSlot"
    ensures ',' !in "mgba-http.button.tap" && ',' !in "mgba-http.button.hold"
  {
  }

  lemma MemoryNames()
    ensures NameOf("core.read8") == Some(Read8) && NameOf("core.read16") == Some(Read16)
    ensures NameOf("core.readRange") == Some(ReadRange) && NameOf("core.write8") == Some(Write8)
    ensures NameOf("core.write16") == Some(Write16) && NameOf("core.write32") == Some(Write32)
    ensures ',' !in "core.read8" && ',' !in "core.read16" && ',' !in "core.readRange"
    ensures ',' !in "core.write8" && ',' !in "core.write16" && ',' !in "core.write32"
  {
  }

  /** Reading and writing slots, and pressing buttons. */
  lemma SlotMeanings(slot: string)
    requires Decimals(slot)
    ensures AllDigits(slot, 10)
    ensures ParseMessage("core.saveStateSlot" + "," + slot + "<|END|>")
         == if Value(slot, 10) < 256 then Some(SaveState(Value(slot, 10))) else None
    ensures ParseMessage("core.loadStateSlot" + "," + slot + "<|END|>")
         == if Value(slot, 10) < 256 then Some(LoadState(Value(slot, 10))) else None
  {
    hide ParseMessage, NameOf, Value, ParseRadix, NumericValue;
    NumberIs(slot);
    ParseDecimal(slot, 256);
    DecimalValue(slot);
    DecimalsCommaFree(slot);
    SlotAndButtonNames();
    OneArgParsed("core.saveStateSlot", slot);
    OneArgParsed("core.loadStateSlot", slot);
  }

  lemma OneArgParsed(name: string, a: string)
    requires ',' !in name && ',' !in a
    ensures ParseMessage(name + "," + a + "<|END|>")
         == if NameOf(name).Some? then ParseArgs(NameOf(name).value, [a]) else None
  {
    hide ParseMessage, ParseArgs, NameOf;
    OneArg(name, a);
    Parsed(name, [a]);
  }

  lemma TwoArgsParsed(name: string, a: string, b: string)
    requires ',' !in name && ',' !in a && ',' !in b
    ensures ParseMessage(name + "," + a + "," + b + "<|END|>")
         == if NameOf(name).Some? then ParseArgs(NameOf(name).value, [a, b]) else None
  {
    hide ParseMessage, ParseArgs, NameOf;
    TwoArgs(name, a, b);
    Parsed(name, [a, b]);
  }

  /** A tap names its button. A hold always parses: without a duration, or with one that
      does not fit 32 bits, it lasts 15 frames. */
  lemma ButtonMeanings(button: string, duration: string)
    requires ',' !in button && Decimals(duration)
    ensures AllDigits(duration, 10)
    ensures ParseMessage("mgba-http.button.tap" + "," + button + "<|END|>") == Some(ButtonTap(button))
    ensures ParseMessage("mgba-http.button.hold" + "," + button + "<|END|>") == Some(ButtonHold(button, 15))
    ensures ParseMessage("mgba-http.button.hold" + "," + button + "," + duration + "<|END|>")
         == Some(ButtonHold(button, if Value(duration, 10) < 0x1_0000_0000 then Value(duration, 10) else 15))
  {
    hide ParseMessage, NameOf, Value, ParseRadix, NumericValue;
    NumberIs(duration);
    ParseDecimal(duration, TWO_32);
    DecimalValue(duration);
    DecimalsCommaFree(duration);
    SlotAndButtonNames();
    OneArgParsed("mgba-http.button.tap", button);
    OneArgParsed("mgba-http.button.hold", button);
    TwoArgsParsed("mgba-http.button.hold", button, duration);
  }

  /** The number a numeric argument stands for. */
  function Meant(s: string): nat
    requires Number(s)
  {
    MeantDigits(s);
    if Decimals(s) then Value(s, 10) else Value(s[2..], 16)
  }

  lemma MeantDigits(s: string)
    requires Number(s)
    ensures Decimals(s) ==> AllDigits(s, 10)
    ensures !Decimals(s) ==> |s| > 2 && AllDigits(s[2..], 16)
  {
  }

  lemma MeantParses(s: string)
    requires Number(s)
    ensures ParseAddress(s) == if Meant(s) < 0x1_0000_0000 then Some(Meant(s)) else None
    ensures ',' !in s
  {
    NumberIs(s);
    ParseAccepted(s);
    DecimalsCommaFree(s);
  }

  /** Reads carry the address and the length; a number that does not fit 32 bits fails. */
  lemma ReadMeanings(address: string, length: string)
    requires Number(address) && Decimals(length)
    ensures ParseMessage("core.read8" + "," + address + "<|END|>")
         == if Meant(address) < 0x1_0000_0000 then Some(ReadMemory(Meant(address), 1)) else None
    ensures ParseMessage("core.read16" + "," + address + "<|END|>")
         == if Meant(address) < 0x1_0000_0000 then Some(ReadMemory(Meant(address), 2)) else None
    ensures ParseMessage("core.readRange" + "," + address + "," + length + "<|END|>")
         == if Meant(address) < 0x1_0000_0000 && Meant(length) < 0x1_0000_0000
            then Some(ReadMemory(Meant(address), Meant(length))) else None
  {
    hide ParseMessage, NameOf, Value, ParseRadix, ParseAddress, NumericValue;
    MeantParses(address);
    NumberIs(length);
    ParseDecimal(length, TWO_32);
    DecimalValue(length);
    DecimalsCommaFree(length);
    MemoryNames();
    OneArgParsed("core.read8", address);
    OneArgParsed("core.read16", address);
    TwoArgsParsed("core.readRange", address, length);
  }

  /** The bytes a write sends: the low one, two or four bytes of the value, lowest first. */
  lemma WriteMeanings(address: string, value: string)
    requires Number(address) && Number(value) && Meant(address) < 0x1_0000_0000 && Meant(value) < 0x1_0000_0000
    ensures var a, v := Meant(address), Meant(value);
            && ParseMessage("core.write8" + "," + address + "," + value + "<|END|>") == Some(WriteMemory(a, [v % 256]))
            && ParseMessage("core.write16" + "," + address + "," + value + "<|END|>")
               == Some(WriteMemory(a, [v % 256, v / 256 % 256]))
            && ParseMessage("core.write32" + "," + address + "," + value + "<|END|>")
               == Some(WriteMemory(a, [v % 256, v / 256 % 256, v / 65536 % 256, v / 16777216 % 256]))
  {
    hide ParseMessage, NameOf, ParseAddress, Meant, Le16, Le32;
    MeantParses(address);
    MeantParses(value);
    MemoryNames();
    LowBytes(Meant(value));
    TwoArgsParsed("core.write8", address, value);
    TwoArgsParsed("core.write16", address, value);
    TwoArgsParsed("core.write32", address, value);
  }

  lemma LowBytes(v: u32)
    ensures Le16(v % 0x1_0000) == [v % 256, v / 256 % 256]
    ensures Le32(v) == [v % 256, v / 256 % 256, v / 65536 % 256, v / 16777216 % 256]
  {
    LowHalf(v);
    LowHalf(v / 0x1_0000);
    assert v / 0x1_0000 / 256 == v / 16777216;
  }

  lemma LowHalf(n: nat)
    ensures n % 0x1_0000 % 256 == n % 256 && n % 0x1_0000 / 256 == n / 256 % 256
  {
    var q, r := n / 0x1_0000, n % 0x1_0000;
    assert n == 256 * (256 * q) + r;
    assert r == 256 * (r / 256) + r % 256;
    assert n == 256 * (256 * q + r / 256) + r % 256;
    assert n / 256 == 256 * q + r / 256;
  }

  /** Any other name is unknown. */
  lemma UnknownName(name: string, args: seq<string>)
    requires CommaFree([name] + args) && |args| <= 2
    requires name !in {"core.read8", "core.read16", "core.readRange", "core.write8", "core.write16", "core.write32",
                       "core.currentFrame", "core.screenshot", "core.saveStateSlot", "core.loadStateSlot",
                       "core.reset", "restart", "mgba-http.button.tap", "mgba-http.button.hold", "health"}
    ensures ParseMessage(Format(name, args)) == None
  {
    Parsed(name, args);
  }

  /** The parser, unlike the validator, also takes an upper-case prefix. */
  lemma UpperCasePrefix(digits: string)
    ensures ParseAddress("0X" + digits) == ParseAddress("0x" + digits)
    ensures digits != [] ==> !Number("0X" + digits)
  {
    var upper, lower := "0X" + digits, "0x" + digits;
    assert upper[2..] == digits == lower[2..];
    assert upper[1] == 'X' && lower[1] == 'x' && "0x"[1] == 'x' && "0X"[1] == 'X';
    assert "0X" <= upper && "0x" <= lower;
  }

  /** Why a text is rejected. */
  lemma Rejections(text: string)
    ensures !(|text| >= 7 && text[|text| - 7..] == "<|END|>") ==>
              ValidateCommand(text) == Err("invalid command terminator")
    ensures |text| >= 7 && text[|text| - 7..] == "<|END|>" && NameOf(Split(text[..|text| - 7])[0]).None? ==>
              ValidateCommand(text) == Err("unsupported command")
  {
    hide NameOf, Split, CheckArgs;
    assert |TERMINATION_MARKER| == 7;
  }

  /** What is missing behind a name is said. */
  lemma MissingArguments(name: CommandName, first: string)
    ensures name in {Read8, Read16, ReadRange, Write8, Write16, Write32} ==>
              CheckArgs(name, []) == Err("missing address")
    ensures name == ReadRange ==> CheckArgs(name, [first]) == Err("missing length")
    ensures name in {Write8, Write16, Write32} ==> CheckArgs(name, [first]) == Err("missing value")
    ensures name in {SaveStateSlot, LoadStateSlot} ==> CheckArgs(name, []) == Err("missing slot")
    ensures name in {Tap, Hold} ==> CheckArgs(name, []) == Err("missing button")
    ensures name == Hold ==> CheckArgs(name, [first]) == Err("missing duration")
  {
  }
}
