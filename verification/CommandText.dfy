/** The command text path: `format_message` (crates/mgba/src/protocol.rs),
    `validate_command` (crates/gateway/src/lib.rs) and `parse_message_to_command`
    (crates/mgba/src/ipc_transport.rs). */
module CommandText {
  import opened Bytes

  const TERMINATION_MARKER: string := "<|END|>"
  const SUCCESS_MARKER: string := "<|SUCCESS|>"

  /** A message body: the command name, then every argument behind a comma. */
  function Body(name: string, args: seq<string>): string {
    if args == [] then name else Body(name, args[..|args| - 1]) + [','] + args[|args| - 1]
  }

  function Format(name: string, args: seq<string>): string {
    Body(name, args) + TERMINATION_MARKER
  }

  method FormatMessage(name: string, args: seq<string>) returns (message: string)
    ensures message == Format(name, args)
  {
    if args == [] {
      message := name + TERMINATION_MARKER;
    } else {
      var body := name;
      for i := 0 to |args|
        invariant body == Body(name, args[..i])
      {
        body := body + [','];
        body := body + args[i];
        assert args[..i + 1][..i] == args[..i];
      }
      assert args[..|args|] == args;
      message := body + TERMINATION_MARKER;
    }
  }

  /** `str::split(',')`: never empty, and the parts hold no comma. */
  function Split(s: string): (parts: seq<string>)
    ensures |parts| >= 1
  {
    if s == [] then [[]] else
      var parts := Split(s[..|s| - 1]);
      if s[|s| - 1] == ',' then parts + [[]]
      else parts[..|parts| - 1] + [parts[|parts| - 1] + [s[|s| - 1]]]
  }

  /** `str::splitn(n, ',')`: the last of at most `n` parts keeps the remaining commas. */
  function SplitN(s: string, n: nat): seq<string>
    requires n > 0
  {
    var parts := Split(s);
    if |parts| <= n then parts else parts[..n - 1] + [Body(parts[n - 1], parts[n..])]
  }

  function StripSuffix(s: string, suffix: string): Option<string> {
    if |s| >= |suffix| && s[|s| - |suffix|..] == suffix then Some(s[..|s| - |suffix|]) else None
  }

  lemma SplitSnoc(s: string, c: char)
    ensures Split(s + [c]) == if c == ',' then Split(s) + [[]]
                              else Split(s)[..|Split(s)| - 1] + [Split(s)[|Split(s)| - 1] + [c]]
  {
    assert (s + [c])[..|s + [c]| - 1] == s;
  }

  lemma {:induction false} SplitConcat(s: string, t: string)
    ensures Split(s + [','] + t) == Split(s) + Split(t)
  {
    hide Split;
    if t == [] {
      assert s + [','] + t == s + [','];
      SplitSnoc(s, ',');
      SplitCommaFree([]);
    } else {
      var init, c := t[..|t| - 1], t[|t| - 1];
      SplitConcat(s, init);
      assert s + [','] + t == (s + [','] + init) + [c] && t == init + [c];
      SplitSnoc(s + [','] + init, c);
      SplitSnoc(init, c);
    }
  }

  lemma BodySnoc(name: string, args: seq<string>, a: string)
    ensures Body(name, args + [a]) == Body(name, args) + [','] + a
  {
    assert (args + [a])[..|args|] == args;
  }

  /** The text of a list of parts. */
  function Joined(parts: seq<string>): string
    requires parts != []
  {
    Body(parts[0], parts[1..])
  }

  lemma JoinedSnoc(parts: seq<string>, a: string)
    requires parts != []
    ensures Joined(parts + [a]) == Joined(parts) + [','] + a
  {
    assert (parts + [a])[1..] == parts[1..] + [a];
    BodySnoc(parts[0], parts[1..], a);
  }

  /** Extending the last part extends the text. */
  lemma JoinedExtend(parts: seq<string>, c: char)
    requires parts != []
    ensures var n := |parts| - 1; Joined(parts[..n] + [parts[n] + [c]]) == Joined(parts) + [c]
  {
    var n := |parts| - 1;
    if n == 0 {
      assert parts[..n] + [parts[n] + [c]] == [parts[0] + [c]];
    } else {
      var init := parts[..n];
      JoinedSnoc(init, parts[n] + [c]);
      JoinedSnoc(init, parts[n]);
      hide Joined;
      assert parts == init + [parts[n]];
    }
  }

  /** Splitting loses nothing: joining the parts with commas gives the string back. */
  lemma {:induction false} SplitJoins(s: string)
    ensures Joined(Split(s)) == s
  {
    if s == [] {
    } else {
      hide Split, Joined;
      var init, c := s[..|s| - 1], s[|s| - 1];
      SplitJoins(init);
      assert s == init + [c];
      SplitSnoc(init, c);
      if c == ',' {
        JoinedSnoc(Split(init), []);
      } else {
        JoinedExtend(Split(init), c);
      }
    }
  }

  lemma {:induction false} SplitCommaFree(s: string)
    requires ',' !in s
    ensures Split(s) == [s]
  {
    if s == [] {
    } else {
      var init, c := s[..|s| - 1], s[|s| - 1];
      SplitCommaFree(init);
      assert s == init + [c];
      SplitSnoc(init, c);
    }
  }

  lemma {:induction false} PartsCommaFree(s: string)
    ensures forall i :: 0 <= i < |Split(s)| ==> ',' !in Split(s)[i]
  {
    if s == [] {
    } else {
      PartsCommaFree(s[..|s| - 1]);
    }
  }

  lemma {:induction false} SplitCount(s: string)
    ensures |Split(s)| == 1 <==> ',' !in s
  {
    if s == [] {
    } else {
      SplitCount(s[..|s| - 1]);
      assert s == s[..|s| - 1] + [s[|s| - 1]];
    }
  }

  ghost predicate CommaFree(parts: seq<string>) {
    forall i :: 0 <= i < |parts| ==> ',' !in parts[i]
  }

  /** A formatted body splits into at least one part per argument, and into exactly
      the name and the arguments if and only if none of them holds a comma. */
  lemma {:induction false} SplitBody(name: string, args: seq<string>)
    ensures |Split(Body(name, args))| >= 1 + |args|
    ensures |Split(Body(name, args))| == 1 + |args| <==> CommaFree([name] + args)
    ensures Split(Body(name, args)) == [name] + args <==> CommaFree([name] + args)
  {
    if args == [] {
      SplitCount(name);
      assert [name] + args == [name] && ([name] + args)[0] == name;
      if ',' !in name {
        SplitCommaFree(name);
      }
    } else {
      var n := |args| - 1;
      var init, last := args[..n], args[n];
      SplitBody(name, init);
      SplitConcat(Body(name, init), last);
      SplitCount(last);
      if ',' !in last {
        SplitCommaFree(last);
      }
      assert [name] + args == ([name] + init) + [last];
      SnocCommaFree([name] + init, last);
    }
  }

  lemma SnocCommaFree(parts: seq<string>, last: string)
    ensures CommaFree(parts + [last]) <==> CommaFree(parts) && ',' !in last
  {
    var all := parts + [last];
    assert all[|parts|] == last;
    assert forall i :: 0 <= i < |parts| ==> all[i] == parts[i];
  }

  lemma StripFormatted(name: string, args: seq<string>)
    ensures StripSuffix(Format(name, args), TERMINATION_MARKER) == Some(Body(name, args))
  {
  }

  /** Stripping the marker and splitting inverts `format_message` exactly when no
      part holds a comma. */
  lemma FormatRoundTrip(name: string, args: seq<string>)
    ensures StripSuffix(Format(name, args), TERMINATION_MARKER).Some?
    ensures Split(StripSuffix(Format(name, args), TERMINATION_MARKER).value) == [name] + args
       <==> CommaFree([name] + args)
  {
    StripFormatted(name, args);
    SplitBody(name, args);
  }

  /** `char::to_digit`. */
  function Digit(c: char, radix: nat): Option<nat> {
    var d := if '0' <= c <= '9' then c as int - '0' as int
             else if 'a' <= c <= 'f' then c as int - 'a' as int + 10
             else if 'A' <= c <= 'F' then c as int - 'A' as int + 10 else 99;
    if d < radix then Some(d) else None
  }

  /** One more digit behind a number. */
  function NextValue(v: nat, radix: nat, d: nat): nat {
    v * radix + d
  }

  /** Rust's checked left-to-right accumulation into an integer below `bound`. */
  function Accumulate(s: string, radix: nat, bound: nat): (r: Option<nat>)
    requires bound > 0
    ensures r.Some? ==> r.value < bound
  {
    if s == [] then Some(0) else
      match (Accumulate(s[..|s| - 1], radix, bound), Digit(s[|s| - 1], radix))
      case (Some(v), Some(d)) => if NextValue(v, radix, d) < bound then Some(NextValue(v, radix, d)) else None
      case _ => None
  }

  /** `from_str_radix`: one leading `+` is allowed, no digits at all are not. */
  function ParseRadix(s: string, radix: nat, bound: nat): (r: Option<nat>)
    requires bound > 0
    ensures r.Some? ==> r.value < bound
  {
    var digits := if s != [] && s[0] == '+' then s[1..] else s;
    if digits == [] then None else Accumulate(digits, radix, bound)
  }

  function ParseAddress(s: string): (r: Option<nat>)
    ensures r.Some? ==> r.value < TWO_32
  {
    if "0x" <= s || "0X" <= s then ParseRadix(s[2..], 16, TWO_32) else ParseRadix(s, 10, TWO_32)
  }

  predicate AllDigits(s: string, radix: nat) {
    forall i :: 0 <= i < |s| ==> Digit(s[i], radix).Some?
  }

  /** The number a digit string denotes, without any bound. */
  function Value(s: string, radix: nat): nat
    requires AllDigits(s, radix)
  {
    if s == [] then 0 else NextValue(Value(s[..|s| - 1], radix), radix, Digit(s[|s| - 1], radix).value)
  }

  /** Checked accumulation finds the value exactly when it fits. */
  lemma {:induction false} AccumulateIsValue(s: string, radix: nat, bound: nat)
    requires AllDigits(s, radix) && radix >= 1 && bound > 0
    ensures Accumulate(s, radix, bound) == if Value(s, radix) < bound then Some(Value(s, radix)) else None
  {
    if s == [] {
    } else {
      var v, d := Value(s[..|s| - 1], radix), Digit(s[|s| - 1], radix).value;
      AccumulateIsValue(s[..|s| - 1], radix, bound);
      GrowsWithDigits(v, radix, d);
    }
  }

  lemma GrowsWithDigits(v: nat, radix: nat, d: nat)
    requires radix >= 1
    ensures NextValue(v, radix, d) >= v
  {
  }

  predicate IsDecimalArg(s: string) {
    s != [] && forall i :: 0 <= i < |s| ==> '0' <= s[i] <= '9'
  }

  predicate IsHexDigit(c: char) {
    '0' <= c <= '9' || 'a' <= c <= 'f' || 'A' <= c <= 'F'
  }

  predicate IsNumericArg(s: string) {
    IsDecimalArg(s)
    || ("0x" <= s && s[2..] != [] && forall i :: 2 <= i < |s| ==> IsHexDigit(s[i]))
  }

  predicate IsValidButton(s: string) {
    s in {"A", "B", "L", "R", "Start", "Select", "Up", "Down", "Left", "Right"}
  }

  lemma NumericDigits(s: string)
    requires IsNumericArg(s)
    ensures IsDecimalArg(s) ==> AllDigits(s, 10) && s[0] != '+' && !("0x" <= s) && !("0X" <= s)
    ensures !IsDecimalArg(s) ==> "0x" <= s && AllDigits(s[2..], 16) && s[2] != '+'
  {
    if IsDecimalArg(s) && |s| >= 2 {
      assert s[1] != 'x' && s[1] != 'X';
      assert "0x"[1] == 'x' && "0X"[1] == 'X';
    }
  }

  /** The number an accepted numeric argument denotes. */
  function NumericValue(s: string): nat
    requires IsNumericArg(s)
  {
    NumericDigits(s);
    if IsDecimalArg(s) then Value(s, 10) else Value(s[2..], 16)
  }

  lemma ParseAccepted(s: string)
    requires IsNumericArg(s)
    ensures ParseAddress(s) == if NumericValue(s) < TWO_32 then Some(NumericValue(s)) else None
  {
    NumericDigits(s);
    if IsDecimalArg(s) {
      AccumulateIsValue(s, 10, TWO_32);
    } else {
      AccumulateIsValue(s[2..], 16, TWO_32);
    }
  }

  lemma ParseDecimal(s: string, bound: nat)
    requires IsDecimalArg(s) && bound > 0
    ensures IsNumericArg(s)
    ensures ParseRadix(s, 10, bound) == if NumericValue(s) < bound then Some(NumericValue(s)) else None
  {
    NumericDigits(s);
    AccumulateIsValue(s, 10, bound);
  }

  datatype CommandName =
    | Read8 | Read16 | ReadRange | Write8 | Write16 | Write32 | CurrentFrame | Screenshot
    | SaveStateSlot | LoadStateSlot | CoreReset | Restart | Tap | Hold | Health

  function NameOf(s: string): Option<CommandName> {
    if s == "core.read8" then Some(Read8)
    else if s == "core.read16" then Some(Read16)
    else if s == "core.readRange" then Some(ReadRange)
    else if s == "core.write8" then Some(Write8)
    else if s == "core.write16" then Some(Write16)
    else if s == "core.write32" then Some(Write32)
    else if s == "core.currentFrame" then Some(CurrentFrame)
    else if s == "core.screenshot" then Some(Screenshot)
    else if s == "core.saveStateSlot" then Some(SaveStateSlot)
    else if s == "core.loadStateSlot" then Some(LoadStateSlot)
    else if s == "core.reset" then Some(CoreReset)
    else if s == "restart" then Some(Restart)
    else if s == "mgba-http.button.tap" then Some(Tap)
    else if s == "mgba-http.button.hold" then Some(Hold)
    else if s == "health" then Some(Health)
    else None
  }

  /** What `validate_command` checks behind the name, and its complaint. */
  function CheckArgs(name: CommandName, args: seq<string>): Result<(), string> {
    match name
    case Read8 | Read16 =>
      if args == [] then Err("missing address")
      else if |args| > 1 || !IsNumericArg(args[0]) then Err("invalid address") else Ok(())
    case ReadRange =>
      if args == [] then Err("missing address")
      else if |args| == 1 then Err("missing length")
      else if |args| > 2 || !IsNumericArg(args[0]) || !IsDecimalArg(args[1]) then Err("invalid range") else Ok(())
    case Write8 | Write16 | Write32 =>
      if args == [] then Err("missing address")
      else if |args| == 1 then Err("missing value")
      else if |args| > 2 || !IsNumericArg(args[0]) || !IsNumericArg(args[1]) then Err("invalid write args") else Ok(())
    case SaveStateSlot | LoadStateSlot =>
      if args == [] then Err("missing slot")
      else if |args| > 1 || !IsDecimalArg(args[0]) then Err("invalid slot") else Ok(())
    case CoreReset => if args != [] then Err("reset takes no args") else Ok(())
    case CurrentFrame => if args != [] then Err("currentFrame takes no args") else Ok(())
    case Tap =>
      if args == [] then Err("missing button")
      else if |args| > 1 || !IsValidButton(args[0]) then Err("invalid button") else Ok(())
    case Hold =>
      if args == [] then Err("missing button")
      else if |args| == 1 then Err("missing duration")
      else if |args| > 2 || !IsValidButton(args[0]) || !IsDecimalArg(args[1]) then Err("invalid hold") else Ok(())
    case _ => Err("unsupported command")
  }

  function ValidateCommand(command: string): Result<string, string> {
    match StripSuffix(command, TERMINATION_MARKER)
    case None => Err("invalid command terminator")
    case Some(body) =>
      var parts := Split(body);
      match NameOf(parts[0])
      case None => Err("unsupported command")
      case Some(name) =>
        match CheckArgs(name, parts[1..])
        case Err(e) => Err(e)
        case Ok(_) => Ok(command)
  }

  datatype WorkerCommand =
    | ReadMemory(address: u32, size: u32)
    | WriteMemory(address: u32, data: seq<byte>)
    | GetCurrentFrame | TakeScreenshot | SaveState(slot: byte) | LoadState(slot: byte)
    | Reset | ButtonTap(button: string) | ButtonHold(button: string, durationFrames: u32) | Ping

  /** The little-endian bytes `core.writeN` sends for a value: truncated to its width. */
  function ValueBytes(name: CommandName, value: u32): seq<byte> {
    match name
    case Write8 => [value % 256]
    case Write16 => Le16(value % 0x1_0000)
    case _ => Le32(value)
  }

  function ParseRead(args: seq<string>, size: Option<u32>): Option<WorkerCommand> {
    if args == [] then None
    else
      var address := ParseAddress(args[0]);
      if address.None? || size.None? then None else Some(ReadMemory(address.value, size.value))
  }

  function ParseSlot(args: seq<string>): Option<byte> {
    if args == [] then None else ParseRadix(args[0], 10, 256)
  }

  /** The arms of the parser; `args` are what `parts.next()` still yields. */
  function ParseArgs(name: CommandName, args: seq<string>): Option<WorkerCommand> {
    match name
    case Read8 => ParseRead(args, Some(1))
    case Read16 => ParseRead(args, Some(2))
    case ReadRange => ParseRead(args, if |args| < 2 then None else ParseRadix(args[1], 10, TWO_32))
    case Write8 | Write16 | Write32 =>
      if |args| < 2 then None
      else
        var address, value := ParseAddress(args[0]), ParseAddress(args[1]);
        if address.None? || value.None? then None
        else Some(WriteMemory(address.value, ValueBytes(name, value.value)))
    case CurrentFrame => Some(GetCurrentFrame)
    case Screenshot => Some(TakeScreenshot)
    case SaveStateSlot =>
      var slot := ParseSlot(args);
      if slot.None? then None else Some(SaveState(slot.value))
    case LoadStateSlot =>
      var slot := ParseSlot(args);
      if slot.None? then None else Some(LoadState(slot.value))
    case CoreReset | Restart => Some(Reset)
    case Tap => if args == [] then None else Some(ButtonTap(args[0]))
    case Hold =>
      if args == [] then None
      else
        var frames := if |args| < 2 then None else ParseRadix(args[1], 10, TWO_32);
        Some(ButtonHold(args[0], if frames.Some? then frames.value else 15))
    case Health => Some(Ping)
  }

  function ParseMessage(message: string): Option<WorkerCommand> {
    match StripSuffix(message, TERMINATION_MARKER)
    case None => None
    case Some(body) =>
      var parts := SplitN(body, 10);
      match NameOf(parts[0])
      case None => None
      case Some(name) => ParseArgs(name, parts[1..])
  }

  /** The command an accepted argument list denotes, in unbounded numbers; none
      when an address, value, length or slot does not fit its integer type. */
  function Denotes(name: CommandName, args: seq<string>): Option<WorkerCommand>
    requires CheckArgs(name, args).Ok?
  {
    match name
    case Read8 => if NumericValue(args[0]) < TWO_32 then Some(ReadMemory(NumericValue(args[0]), 1)) else None
    case Read16 => if NumericValue(args[0]) < TWO_32 then Some(ReadMemory(NumericValue(args[0]), 2)) else None
    case ReadRange =>
      var length := Value(args[1], 10);
      if NumericValue(args[0]) < TWO_32 && length < TWO_32
      then Some(ReadMemory(NumericValue(args[0]), length)) else None
    case Write8 | Write16 | Write32 =>
      if NumericValue(args[0]) < TWO_32 && NumericValue(args[1]) < TWO_32
      then Some(WriteMemory(NumericValue(args[0]), ValueBytes(name, NumericValue(args[1])))) else None
    case SaveStateSlot => if Value(args[0], 10) < 256 then Some(SaveState(Value(args[0], 10))) else None
    case LoadStateSlot => if Value(args[0], 10) < 256 then Some(LoadState(Value(args[0], 10))) else None
    case CoreReset => Some(Reset)
    case CurrentFrame => Some(GetCurrentFrame)
    case Tap => Some(ButtonTap(args[0]))
    case Hold => Some(ButtonHold(args[0], if Value(args[1], 10) < TWO_32 then Value(args[1], 10) else 15))
  }

  /** What the validator accepts, the parser turns into the command it denotes;
      it fails only when a number is too large for its integer type. */
  lemma ValidatorParserAgree(message: string)
    requires ValidateCommand(message).Ok?
    ensures ValidateCommand(message).value == message
    ensures StripSuffix(message, TERMINATION_MARKER).Some?
    ensures var parts := Split(StripSuffix(message, TERMINATION_MARKER).value);
            && NameOf(parts[0]).Some?
            && CheckArgs(NameOf(parts[0]).value, parts[1..]).Ok?
            && ParseMessage(message) == Denotes(NameOf(parts[0]).value, parts[1..])
  {
    hide NameOf, Split, StripSuffix, CheckArgs, ParseArgs, Denotes;
    var parts := Split(StripSuffix(message, TERMINATION_MARKER).value);
    var name := NameOf(parts[0]).value;
    FewArgs(name, parts[1..]);
    ArgsAgree(name, parts[1..]);
  }

  lemma FewArgs(name: CommandName, args: seq<string>)
    requires CheckArgs(name, args).Ok?
    ensures |args| <= 2
  {
  }

  lemma ArgsAgree(name: CommandName, args: seq<string>)
    requires CheckArgs(name, args).Ok?
    ensures ParseArgs(name, args) == Denotes(name, args)
  {
    hide ParseAddress, ParseRadix, NumericValue, Value, IsNumericArg, IsDecimalArg, IsValidButton;
    match name
    case Read8 => ParseAccepted(args[0]);
    case Read16 => ParseAccepted(args[0]);
    case ReadRange => ParseAccepted(args[0]); ParseDecimal(args[1], TWO_32); DecimalValue(args[1]);
    case Write8 => ParseAccepted(args[0]); ParseAccepted(args[1]);
    case Write16 => ParseAccepted(args[0]); ParseAccepted(args[1]);
    case Write32 => ParseAccepted(args[0]); ParseAccepted(args[1]);
    case SaveStateSlot => ParseDecimal(args[0], 256); DecimalValue(args[0]);
    case LoadStateSlot => ParseDecimal(args[0], 256); DecimalValue(args[0]);
    case Hold => ParseDecimal(args[1], TWO_32); DecimalValue(args[1]);
    case _ =>
  }

  lemma DecimalValue(s: string)
    requires IsDecimalArg(s)
    ensures IsNumericArg(s) && AllDigits(s, 10) && NumericValue(s) == Value(s, 10)
  {
    NumericDigits(s);
  }

  /** How many arguments an endpoint formats behind its command name. */
  function Arity(name: CommandName): nat {
    match name
    case Read8 => 1
    case Read16 => 1
    case SaveStateSlot => 1
    case LoadStateSlot => 1
    case Tap => 1
    case ReadRange => 2
    case Write8 => 2
    case Write16 => 2
    case Write32 => 2
    case Hold => 2
    case _ => 0
  }

  /** No argument of an endpoint can change which command runs: if the formatted
      message passes validation, the worker gets exactly the endpoint's own command
      on exactly the caller's arguments. */
  lemma EndpointRunsItsOwnCommand(name: string, args: seq<string>)
    requires ',' !in name && NameOf(name).Some? && |args| == Arity(NameOf(name).value)
    requires ValidateCommand(Format(name, args)).Ok?
    ensures CheckArgs(NameOf(name).value, args).Ok?
    ensures ParseMessage(Format(name, args)) == Denotes(NameOf(name).value, args)
  {
    hide NameOf, Split, StripSuffix, Body, CheckArgs, Denotes, ParseMessage;
    var message := Format(name, args);
    StripFormatted(name, args);
    ValidatorParserAgree(message);
    SplitBody(name, args);
    SplitHead(name, args);
    var parts := Split(Body(name, args));
    ArgCount(NameOf(name).value, parts[1..]);
    assert parts == [name] + args;
  }

  lemma ArgCount(name: CommandName, args: seq<string>)
    requires CheckArgs(name, args).Ok?
    ensures |args| == Arity(name)
  {
  }

  lemma {:induction false} SplitHead(name: string, args: seq<string>)
    requires ',' !in name
    ensures Split(Body(name, args))[0] == name
  {
    if args == [] {
      SplitCommaFree(name);
    } else {
      var n := |args| - 1;
      SplitHead(name, args[..n]);
      SplitConcat(Body(name, args[..n]), args[n]);
    }
  }
}
