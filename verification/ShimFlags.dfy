/**
 The command line of the BoGo shim: `Flags.parse`, and a printer that it inverts.  Zig's
 std.fmt.parseInt is modelled in base 10: an optional sign, digits, underscores ignored except
 at either end, and an error on overflow.
 */
module ShimFlags {
  import opened Collections

  const TLS12: nat := 0x0303
  const TLS13: nat := 0x0304
  const SECP256R1: nat := 23
  const X25519_MLKEM768: nat := 4588
  const MAX_U16: nat := 0xFFFF
  const MAX_U64: nat := 0xFFFF_FFFF_FFFF_FFFF

  // ----- Integers -------------------------------------------------------------------------------------

  predicate IsDigit(c: char) {
    '0' <= c <= '9'
  }

  function DigitValue(c: char): nat
    requires IsDigit(c)
  {
    c as int - '0' as int
  }

  function Push(acc: Option<nat>, c: char, max: nat): Option<nat> {
    if acc.None? || c == '_' then acc
    else if !IsDigit(c) then None
    else
      var n := acc.value * 10 + DigitValue(c);
      if n > max then None else Some(n)
  }

  function Digits(s: string, max: nat): Option<nat> {
    if s == [] then Some(0) else Push(Digits(s[..|s| - 1], max), s[|s| - 1], max)
  }

  /** std.fmt.parseInt for an unsigned type; a negative number is accepted only when it is zero. */
  function ParseInt(s: string, max: nat): Option<nat> {
    var negative := s != [] && s[0] == '-';
    var body := if s != [] && (s[0] == '+' || s[0] == '-') then s[1..] else s;
    if body == [] || body[0] == '_' || body[|body| - 1] == '_' then None
    else Digits(body, if negative then 0 else max)
  }

  function Decimal(n: nat): (s: string)
    ensures s != [] && forall i :: 0 <= i < |s| ==> IsDigit(s[i])
  {
    var digit := ('0' as int + n % 10) as char;
    if n < 10 then [digit] else Decimal(n / 10) + [digit]
  }

  lemma {:induction false} DecimalParses(n: nat, max: nat)
    requires n <= max
    ensures Digits(Decimal(n), max) == Some(n)
  {
    var s := Decimal(n);
    if n < 10 {
      assert s[..0] == [];
    } else {
      DecimalParses(n / 10, max);
      assert s[..|s| - 1] == Decimal(n / 10);
    }
  }

  lemma PrintedIntParses(n: nat, max: nat)
    requires n <= max
    ensures ParseInt(Decimal(n), max) == Some(n)
  {
    DecimalParses(n, max);
  }

  lemma {:induction false} DigitsBounded(s: string, max: nat)
    ensures Digits(s, max).Some? ==> Digits(s, max).value <= max
  {
    if s != [] {
      DigitsBounded(s[..|s| - 1], max);
    }
  }

  lemma ParseIntBounded(s: string, max: nat)
    ensures ParseInt(s, max).Some? ==> ParseInt(s, max).value <= max
  {
    var body := if s != [] && (s[0] == '+' || s[0] == '-') then s[1..] else s;
    DigitsBounded(body, max);
    DigitsBounded(body, 0);
  }

  /** The number that the digits of a text spell, whatever else is between them. */
  function Spelled10(s: string): nat {
    if s == [] then 0
    else
      var k := |s| - 1;
      if IsDigit(s[k]) then Spelled10(s[..k]) * 10 + (s[k] as int - '0' as int) else Spelled10(s[..k])
  }

  /** Only digits and underscores, and no underscore at either end. */
  predicate WellFormed(body: string) {
    && body != [] && body[0] != '_' && body[|body| - 1] != '_'
    && DigitsOrUnderscores(body)
  }

  predicate DigitsOrUnderscores(s: string) {
    forall i :: 0 <= i < |s| ==> '0' <= s[i] <= '9' || s[i] == '_'
  }

  lemma {:induction false} DigitsExact(s: string, max: nat)
    ensures Digits(s, max)
            == if DigitsOrUnderscores(s) && Spelled10(s) <= max then Some(Spelled10(s)) else None
  {
    if s != [] {
      DigitsExact(s[..|s| - 1], max);
      assert s == s[..|s| - 1] + [s[|s| - 1]];
    }
  }

  /** A sign is optional; what follows is well-formed and no larger than the maximum, or than zero behind a minus. */
  lemma ParseIntExact(sign: string, body: string, max: nat)
    requires sign == "" || sign == "+" || sign == "-"
    requires body != [] && sign == "" ==> body[0] != '+' && body[0] != '-'
    ensures ParseInt(sign + body, max)
            == if WellFormed(body) && Spelled10(body) <= (if sign == "-" then 0 else max) then Some(Spelled10(body))
               else None
  {
    DigitsExact(body, if sign == "-" then 0 else max);
    if sign == "" {
      PrependNothing(body);
    } else {
      SignSplit(sign[0], body);
      assert sign == [sign[0]];
    }
    BodyParses(body, if sign == "-" then 0 else max);
  }

  lemma SignSplit(sign: char, body: string)
    ensures ([sign] + body)[0] == sign && ([sign] + body)[1..] == body
  {}

  /** What is left of a number without its sign. */
  lemma BodyParses(body: string, max: nat)
    ensures (if body == [] || body[0] == '_' || body[|body| - 1] == '_' then None else Digits(body, max))
            == if WellFormed(body) && Spelled10(body) <= max then Some(Spelled10(body)) else None
  {
    DigitsExact(body, max);
  }

  // ----- Flags ----------------------------------------------------------------------------------------

  datatype Curve = P256 | Hybrid

  datatype Flags = Flags(
    server: bool,
    havePort: bool,
    port: nat,
    haveShimId: bool,
    shimId: nat,
    certFile: Option<string>,
    keyFile: Option<string>,
    minVersion: nat,
    maxVersion: nat,
    expectVersion: Option<nat>,
    clientCurve: Option<Curve>,
    selectAlpn: Option<string>,
    expectAlpn: Option<string>)

  const DEFAULTS := Flags(false, false, 0, false, 0, None, None, TLS12, TLS13, None, None, None, None)

  /** Exit code 89, or a malformed invocation. */
  datatype Error = Unimplemented | Usage

  datatype Parsed = Ok(flags: Flags) | Err(error: Error)

  /** The flags of the scoped subset. */
  datatype Flag =
    | Server | Port | ShimId | CertFile | KeyFile | MinVersion | MaxVersion | ExpectVersion
    | Curves | SelectAlpn | ExpectAlpn

  function Spelling(flag: Flag): string {
    match flag
    case Server => "-server"
    case Port => "-port"
    case ShimId => "-shim-id"
    case CertFile => "-cert-file"
    case KeyFile => "-key-file"
    case MinVersion => "-min-version"
    case MaxVersion => "-max-version"
    case ExpectVersion => "-expect-version"
    case Curves => "-curves"
    case SelectAlpn => "-select-alpn"
    case ExpectAlpn => "-expect-alpn"
  }

  /** The chain of string comparisons; None is an unknown flag. */
  function Recognise(a: string): Option<Flag> {
    if a == "-server" then Some(Server)
    else if a == "-port" then Some(Port)
    else if a == "-shim-id" then Some(ShimId)
    else if a == "-cert-file" then Some(CertFile)
    else if a == "-key-file" then Some(KeyFile)
    else if a == "-min-version" then Some(MinVersion)
    else if a == "-max-version" then Some(MaxVersion)
    else if a == "-expect-version" then Some(ExpectVersion)
    else if a == "-curves" then Some(Curves)
    else if a == "-select-alpn" then Some(SelectAlpn)
    else if a == "-expect-alpn" then Some(ExpectAlpn)
    else None
  }

  /** Every flag is recognised by its own spelling, and by no other. */
  lemma RecogniseSpelling(flag: Flag)
    ensures Recognise(Spelling(flag)) == Some(flag)
  {
    match flag {
      case Server =>
      case Port =>
      case ShimId =>
      case CertFile =>
      case KeyFile =>
      case MinVersion =>
      case MaxVersion =>
      case ExpectVersion =>
      case Curves =>
      case SelectAlpn =>
      case ExpectAlpn =>
    }
  }

  lemma RecognisedOnly(a: string)
    ensures Recognise(a).Some? ==> Spelling(Recognise(a).value) == a
  {}

  /** The effect of one flag with its value. */
  function SetFlag(f: Flags, flag: Flag, v: string): Parsed {
    match flag
    case CertFile => Ok(f.(certFile := Some(v)))
    case KeyFile => Ok(f.(keyFile := Some(v)))
    case SelectAlpn => Ok(f.(selectAlpn := Some(v)))
    case ExpectAlpn => Ok(f.(expectAlpn := Some(v)))
    case _ =>
      match ParseInt(v, if flag == ShimId || flag == Curves then MAX_U64 else MAX_U16)
      case None => Err(Usage)
      case Some(n) => SetNumber(f, flag, n)
  }

  function SetNumber(f: Flags, flag: Flag, n: nat): Parsed {
    match flag
    case Port => Ok(f.(port := n, havePort := true))
    case ShimId => Ok(f.(shimId := n, haveShimId := true))
    case MinVersion => Ok(f.(minVersion := n))
    case MaxVersion => Ok(f.(maxVersion := n))
    case ExpectVersion => Ok(f.(expectVersion := Some(n)))
    case _ =>
      if n == SECP256R1 then Ok(f.(clientCurve := Some(P256)))
      else if n == X25519_MLKEM768 then Ok(f.(clientCurve := Some(Hybrid)))
      else Err(Unimplemented)
  }

  /** The flags that remain to be read, from left to right. */
  function ParseRest(f: Flags, rest: seq<string>): Parsed
    decreases |rest|
  {
    if rest == [] then Ok(f)
    else
      match Recognise(rest[0])
      case None => Err(Unimplemented)
      case Some(Server) => ParseRest(f.(server := true), rest[1..])
      case Some(flag) =>
        if flag == Curves && f.clientCurve.Some? then Err(Unimplemented)
        else if |rest| < 2 then Err(Usage)
        else
          match SetFlag(f, flag, rest[1])
          case Err(e) => Err(e)
          case Ok(g) => ParseRest(g, rest[2..])
  }

  /** The checks after the last flag, in their order. */
  function Validate(f: Flags): Parsed {
    if !f.havePort then Err(Usage)
    else if f.minVersion < TLS12 || f.minVersion > TLS13 then Err(Unimplemented)
    else if f.maxVersion < TLS12 || f.maxVersion > TLS13 then Err(Unimplemented)
    else if f.minVersion > f.maxVersion then Err(Usage)
    else if f.maxVersion < TLS13 then Err(Unimplemented)
    else if f.server && f.clientCurve.Some? then Err(Unimplemented)
    else if !f.server && f.selectAlpn.Some? then Err(Unimplemented)
    else if !f.server && f.expectAlpn.Some? then Err(Unimplemented)
    else Ok(f)
  }

  function ParseArgs(args: seq<string>): Parsed {
    match ParseRest(DEFAULTS, if args == [] then [] else args[1..])
    case Err(e) => Err(e)
    case Ok(f) => Validate(f)
  }

  /** `Flags.parse`. */
  method Parse(args: seq<string>) returns (r: Parsed)
    ensures r == ParseArgs(args)
  {
    var f := DEFAULTS;
    var i := 1;
    ghost var goal := ParseRest(DEFAULTS, if args == [] then [] else args[1..]);
    while i < |args|
      invariant 1 <= i
      invariant goal == ParseRest(f, if i <= |args| then args[i..] else [])
    {
      var flag := Recognise(args[i]);
      if flag.None? {
        return Err(Unimplemented);
      }
      if flag.value == Server {
        f := f.(server := true);
        i := i + 1;
        continue;
      }
      if flag.value == Curves && f.clientCurve.Some? {
        return Err(Unimplemented);
      }
      if i + 1 >= |args| {
        return Err(Usage);
      }
      var next := SetFlag(f, flag.value, args[i + 1]);
      if next.Err? {
        return next;
      }
      assert args[i..][2..] == args[i + 2..];
      f := next.flags;
      i := i + 2;
    }
    r := Validate(f);
  }

  // ----- Accepted command lines and valid flags -----------------------------------------------------------

  /** Which error each final check gives, and what passes: a missing port comes before everything else. */
  lemma FinalChecks(args: seq<string>, f: Flags)
    requires ParseRest(DEFAULTS, if args == [] then [] else args[1..]) == Ok(f)
    ensures var versions := 0x0303 <= f.minVersion <= 0x0304 && 0x0303 <= f.maxVersion <= 0x0304;
            var roles := if f.server then f.clientCurve.None? else f.selectAlpn.None? && f.expectAlpn.None?;
            && (ParseArgs(args) == Err(Usage) <==> !f.havePort || (versions && f.minVersion > f.maxVersion))
            && (ParseArgs(args) == Ok(f) <==> f.havePort && versions && f.maxVersion == 0x0304 && roles)
            && (ParseArgs(args) == Err(Unimplemented)
                <==> f.havePort
                     && (!versions || (f.minVersion <= f.maxVersion && (f.maxVersion != 0x0304 || !roles))))
  {}

  /** What each flag with a text for its value sets. */
  lemma TextFlags(f: Flags, v: string, more: seq<string>)
    ensures ParseRest(f, ["-cert-file", v] + more) == ParseRest(f.(certFile := Some(v)), more)
    ensures ParseRest(f, ["-key-file", v] + more) == ParseRest(f.(keyFile := Some(v)), more)
    ensures ParseRest(f, ["-select-alpn", v] + more) == ParseRest(f.(selectAlpn := Some(v)), more)
    ensures ParseRest(f, ["-expect-alpn", v] + more) == ParseRest(f.(expectAlpn := Some(v)), more)
  {
    OneFlag(f, CertFile, v, more);
    OneFlag(f, KeyFile, v, more);
    OneFlag(f, SelectAlpn, v, more);
    OneFlag(f, ExpectAlpn, v, more);
  }

  /** What each flag with a number sets, and that anything but such a number is a usage error. */
  lemma NumberFlags(f: Flags, v: string, more: seq<string>)
    ensures ParseRest(f, ["-port", v] + more)
            == match ParseInt(v, 65535)
               case None => Err(Usage)
               case Some(n) => ParseRest(f.(port := n, havePort := true), more)
    ensures ParseRest(f, ["-shim-id", v] + more)
            == match ParseInt(v, 0xFFFF_FFFF_FFFF_FFFF)
               case None => Err(Usage)
               case Some(n) => ParseRest(f.(shimId := n, haveShimId := true), more)
    ensures ParseRest(f, ["-expect-version", v] + more)
            == match ParseInt(v, 65535)
               case None => Err(Usage)
               case Some(n) => ParseRest(f.(expectVersion := Some(n)), more)
  {
    OneFlag(f, Port, v, more);
    OneFlag(f, ShimId, v, more);
    OneFlag(f, ExpectVersion, v, more);
  }

  lemma VersionFlags(f: Flags, v: string, more: seq<string>)
    ensures ParseRest(f, ["-min-version", v] + more)
            == match ParseInt(v, 65535)
               case None => Err(Usage)
               case Some(n) => ParseRest(f.(minVersion := n), more)
    ensures ParseRest(f, ["-max-version", v] + more)
            == match ParseInt(v, 65535)
               case None => Err(Usage)
               case Some(n) => ParseRest(f.(maxVersion := n), more)
  {
    OneFlag(f, MinVersion, v, more);
    OneFlag(f, MaxVersion, v, more);
  }

  /** The group flag: once only, 23 and 4588 only. */
  lemma CurvesFlag(f: Flags, v: string, more: seq<string>)
    ensures f.clientCurve.Some? ==> ParseRest(f, ["-curves", v] + more) == Err(Unimplemented)
    ensures f.clientCurve.None? ==>
              ParseRest(f, ["-curves", v] + more)
              == match ParseInt(v, 0xFFFF_FFFF_FFFF_FFFF)
                 case None => Err(Usage)
                 case Some(n) =>
                   if n == 23 then ParseRest(f.(clientCurve := Some(P256)), more)
                   else if n == 4588 then ParseRest(f.(clientCurve := Some(Hybrid)), more)
                   else Err(Unimplemented)
  {
    OneFlag(f, Curves, v, more);
  }

  lemma ServerFlag(f: Flags, more: seq<string>)
    ensures ParseRest(f, ["-server"] + more) == ParseRest(f.(server := true), more)
  {
    RecogniseSpelling(Server);
    assert (["-server"] + more)[0] == "-server" && (["-server"] + more)[1..] == more;
  }

  function ReadOn(p: Parsed, more: seq<string>): Parsed {
    match p
    case Err(e) => Err(e)
    case Ok(f) => ParseRest(f, more)
  }

  lemma OneFlag(f: Flags, flag: Flag, v: string, more: seq<string>)
    requires flag != Server
    ensures ParseRest(f, [Spelling(flag), v] + more)
            == if flag == Curves && f.clientCurve.Some? then Err(Unimplemented)
               else ReadOn(SetFlag(f, flag, v), more)
  {
    var rest := [Spelling(flag), v] + more;
    RecogniseSpelling(flag);
    assert rest[0] == Spelling(flag) && rest[1] == v && rest[2..] == more;
  }

  /** With a port alone everything else has its default. */
  lemma PortAlone(name: string, port: nat)
    requires port <= 65535
    ensures ParseArgs([name, "-port", Decimal(port)])
            == Ok(Flags(false, true, port, false, 0, None, None, 0x0303, 0x0304, None, None, None, None))
  {
    var args := [name, "-port", Decimal(port)];
    PrintedIntParses(port, 65535);
    NumberFlags(DEFAULTS, Decimal(port), []);
    assert args[1..] == ["-port", Decimal(port)] + [];
  }

  /** The flag values a run of the shim can work with. */
  predicate Valid(f: Flags) {
    && f.havePort && f.port <= MAX_U16
    && f.shimId <= MAX_U64 && (!f.haveShimId ==> f.shimId == 0)
    && f.maxVersion == TLS13 && (f.minVersion == TLS12 || f.minVersion == TLS13)
    && (f.expectVersion.Some? ==> f.expectVersion.value <= MAX_U16)
    && (f.server ==> f.clientCurve.None?)
    && (!f.server ==> f.selectAlpn.None? && f.expectAlpn.None?)
  }

  /** What holds of the flags read so far. */
  predicate InRange(f: Flags) {
    && f.port <= MAX_U16 && f.shimId <= MAX_U64 && (!f.haveShimId ==> f.shimId == 0)
    && (f.expectVersion.Some? ==> f.expectVersion.value <= MAX_U16)
  }

  lemma SetFlagInRange(f: Flags, flag: Flag, v: string)
    requires InRange(f) && flag != Server
    ensures SetFlag(f, flag, v).Ok? ==> InRange(SetFlag(f, flag, v).flags)
  {
    ParseIntBounded(v, MAX_U16);
    ParseIntBounded(v, MAX_U64);
  }

  lemma {:induction false} RestInRange(f: Flags, rest: seq<string>)
    requires InRange(f)
    ensures ParseRest(f, rest).Ok? ==> InRange(ParseRest(f, rest).flags)
    decreases |rest|
  {
    if rest != [] {
      var flag := Recognise(rest[0]);
      if flag == Some(Server) {
        RestInRange(f.(server := true), rest[1..]);
      } else if flag.Some? && |rest| >= 2 {
        SetFlagInRange(f, flag.value, rest[1]);
        if SetFlag(f, flag.value, rest[1]).Ok? {
          RestInRange(SetFlag(f, flag.value, rest[1]).flags, rest[2..]);
        }
      }
    }
  }

  /** Every accepted command line gives valid flags. */
  lemma AcceptedIsValid(args: seq<string>)
    requires ParseArgs(args).Ok?
    ensures Valid(ParseArgs(args).flags)
  {
    RestInRange(DEFAULTS, if args == [] then [] else args[1..]);
  }

  /** One flag to print, with its value. */
  datatype Setting = Setting(flag: Flag, value: string)

  function IfSome(flag: Flag, v: Option<string>): seq<Setting> {
    if v.Some? then [Setting(flag, v.value)] else []
  }

  function Printed(n: Option<nat>): Option<string> {
    if n.Some? then Some(Decimal(n.value)) else None
  }

  function CurveId(c: Option<Curve>): Option<nat> {
    match c
    case None => None
    case Some(P256) => Some(SECP256R1)
    case Some(Hybrid) => Some(X25519_MLKEM768)
  }

  function Required(f: Flags): seq<Setting> {
    [Setting(Port, Decimal(f.port)), Setting(MinVersion, Decimal(f.minVersion)),
     Setting(MaxVersion, Decimal(f.maxVersion))]
  }

  /** The flags that say everything about a value other than its role. */
  function Settings(f: Flags): seq<Setting> {
    Required(f)
    + IfSome(ShimId, Printed(if f.haveShimId then Some(f.shimId) else None))
    + IfSome(CertFile, f.certFile)
    + IfSome(KeyFile, f.keyFile)
    + IfSome(ExpectVersion, Printed(f.expectVersion))
    + IfSome(Curves, Printed(CurveId(f.clientCurve)))
    + IfSome(SelectAlpn, f.selectAlpn)
    + IfSome(ExpectAlpn, f.expectAlpn)
  }

  function Spelled(ss: seq<Setting>): seq<string> {
    if ss == [] then [] else [Spelling(ss[0].flag), ss[0].value] + Spelled(ss[1..])
  }

  function Render(f: Flags): seq<string> {
    (if f.server then [Spelling(Server)] else []) + Spelled(Settings(f))
  }

  /** Setting flags one after another, when each can be set. */
  function SetAll(f: Flags, ss: seq<Setting>): Parsed
    decreases |ss|
  {
    if ss == [] then Ok(f)
    else if ss[0].flag == Server || (ss[0].flag == Curves && f.clientCurve.Some?) then Err(Unimplemented)
    else
      match SetFlag(f, ss[0].flag, ss[0].value)
      case Err(e) => Err(e)
      case Ok(g) => SetAll(g, ss[1..])
  }

  /** Reading printed settings sets them. */
  lemma {:induction false} ReadSettings(f: Flags, ss: seq<Setting>)
    requires SetAll(f, ss).Ok?
    ensures ParseRest(f, Spelled(ss)) == SetAll(f, ss)
    decreases |ss|
  {
    if ss != [] {
      RecogniseSpelling(ss[0].flag);
      ReadSettings(SetFlag(f, ss[0].flag, ss[0].value).flags, ss[1..]);
      assert Spelled(ss)[2..] == Spelled(ss[1..]);
    }
  }

  lemma {:induction false} SetAppend(f: Flags, a: seq<Setting>, b: seq<Setting>)
    requires SetAll(f, a).Ok?
    ensures SetAll(f, a + b) == SetAll(SetAll(f, a).flags, b)
    decreases |a|
  {
    if a == [] {
      PrependNothing(b);
    } else {
      SetAppend(SetFlag(f, a[0].flag, a[0].value).flags, a[1..], b);
      assert (a + b)[1..] == a[1..] + b;
    }
  }

  /** One more setting, or none, after settings already read. */
  lemma SetOneMore(d: Flags, ss: seq<Setting>, g: Flags, flag: Flag, v: Option<string>, g': Flags)
    requires SetAll(d, ss) == Ok(g) && flag != Server && (flag == Curves ==> g.clientCurve.None?)
    requires if v.Some? then SetFlag(g, flag, v.value) == Ok(g') else g' == g
    ensures SetAll(d, ss + IfSome(flag, v)) == Ok(g')
  {
    SetAppend(d, ss, IfSome(flag, v));
    if v.Some? { assert [Setting(flag, v.value)][1..] == []; }
  }

  /** The same for a number that is printed in decimal. */
  lemma SetOneNumber(d: Flags, ss: seq<Setting>, g: Flags, flag: Flag, n: Option<nat>, g': Flags)
    requires SetAll(d, ss) == Ok(g) && flag in {ShimId, ExpectVersion, Curves}
    requires flag == Curves ==> g.clientCurve.None?
    requires n.Some? ==> n.value <= if flag == ExpectVersion then MAX_U16 else MAX_U64
    requires if n.Some? then SetNumber(g, flag, n.value) == Ok(g') else g' == g
    ensures SetAll(d, ss + IfSome(flag, Printed(n))) == Ok(g')
  {
    if n.Some? { PrintedIntParses(n.value, if flag == ExpectVersion then MAX_U16 else MAX_U64); }
    SetOneMore(d, ss, g, flag, Printed(n), g');
  }

  lemma RequiredSettings(d: Flags, f: Flags)
    requires Valid(f)
    ensures SetAll(d, Required(f))
            == Ok(d.(havePort := true, port := f.port, minVersion := f.minVersion, maxVersion := f.maxVersion))
  {
    var port, min := Setting(Port, Decimal(f.port)), Setting(MinVersion, Decimal(f.minVersion));
    var max := Setting(MaxVersion, Decimal(f.maxVersion));
    var g := d.(havePort := true, port := f.port);
    PortSet(d, f.port);
    VersionsSet(g, f.minVersion, f.maxVersion);
    SetFirst(d, port, [min, max], g);
    assert [port] + [min, max] == [port, min, max];
  }

  lemma PortSet(d: Flags, port: nat)
    requires port <= MAX_U16
    ensures SetFlag(d, Port, Decimal(port)) == Ok(d.(havePort := true, port := port))
  {
    PrintedIntParses(port, MAX_U16);
  }

  lemma VersionsSet(d: Flags, min: nat, max: nat)
    requires min <= MAX_U16 && max <= MAX_U16
    ensures SetAll(d, [Setting(MinVersion, Decimal(min)), Setting(MaxVersion, Decimal(max))])
            == Ok(d.(minVersion := min, maxVersion := max))
  {
    var first, second := Setting(MinVersion, Decimal(min)), Setting(MaxVersion, Decimal(max));
    var g := d.(minVersion := min);
    PrintedIntParses(min, MAX_U16);
    PrintedIntParses(max, MAX_U16);
    SetLast(g, second, g.(maxVersion := max));
    SetFirst(d, first, [second], g);
    assert [first] + [second] == [first, second];
  }

  lemma SetFirst(d: Flags, s: Setting, more: seq<Setting>, g: Flags)
    requires s.flag != Server && s.flag != Curves && SetFlag(d, s.flag, s.value) == Ok(g)
    ensures SetAll(d, [s] + more) == SetAll(g, more)
  {
    assert ([s] + more)[1..] == more;
  }

  lemma SetLast(d: Flags, s: Setting, g: Flags)
    requires s.flag != Server && s.flag != Curves && SetFlag(d, s.flag, s.value) == Ok(g)
    ensures SetAll(d, [s]) == Ok(g)
  {
    assert [s] + [] == [s];
    SetFirst(d, s, [], g);
  }

  lemma SettingsSet(d: Flags, f: Flags)
    requires Valid(f) && d == DEFAULTS.(server := f.server)
    ensures SetAll(d, Settings(f)) == Ok(f)
  {
    var id: Option<nat> := if f.haveShimId then Some(f.shimId) else None;
    var s0 := Required(f);
    var s1 := s0 + IfSome(ShimId, Printed(id));
    var s2 := s1 + IfSome(CertFile, f.certFile);
    var s3 := s2 + IfSome(KeyFile, f.keyFile);
    var s4 := s3 + IfSome(ExpectVersion, Printed(f.expectVersion));
    var g0 := d.(havePort := true, port := f.port, minVersion := f.minVersion, maxVersion := f.maxVersion);
    var g1 := g0.(haveShimId := f.haveShimId, shimId := f.shimId);
    var g3 := g1.(certFile := f.certFile, keyFile := f.keyFile);
    var g4 := g3.(expectVersion := f.expectVersion);
    RequiredSettings(d, f);
    SetOneNumber(d, s0, g0, ShimId, id, g1);
    SetOneMore(d, s1, g1, CertFile, f.certFile, g1.(certFile := f.certFile));
    SetOneMore(d, s2, g1.(certFile := f.certFile), KeyFile, f.keyFile, g3);
    SetOneNumber(d, s3, g3, ExpectVersion, f.expectVersion, g4);
    LastSettings(d, s4, g4, f);
  }

  lemma LastSettings(d: Flags, s4: seq<Setting>, g4: Flags, f: Flags)
    requires SetAll(d, s4) == Ok(g4) && g4 == f.(clientCurve := None, selectAlpn := None, expectAlpn := None)
    ensures SetAll(d, s4 + IfSome(Curves, Printed(CurveId(f.clientCurve))) + IfSome(SelectAlpn, f.selectAlpn)
                      + IfSome(ExpectAlpn, f.expectAlpn)) == Ok(f)
  {
    var s5 := s4 + IfSome(Curves, Printed(CurveId(f.clientCurve)));
    var s6 := s5 + IfSome(SelectAlpn, f.selectAlpn);
    var g5 := g4.(clientCurve := f.clientCurve);
    SetOneNumber(d, s4, g4, Curves, CurveId(f.clientCurve), g5);
    SetOneMore(d, s5, g5, SelectAlpn, f.selectAlpn, g5.(selectAlpn := f.selectAlpn));
    SetOneMore(d, s6, g5.(selectAlpn := f.selectAlpn), ExpectAlpn, f.expectAlpn, f);
  }

  /** Printing then parsing gives back every valid flags value, whatever the program's own name. */
  lemma RenderRoundTrip(name: string, f: Flags)
    requires Valid(f)
    ensures ParseArgs([name] + Render(f)) == Ok(f)
  {
    assert ([name] + Render(f))[1..] == Render(f);
    var d := DEFAULTS.(server := f.server);
    SettingsSet(d, f);
    ReadSettings(d, Settings(f));
    RecogniseSpelling(Server);
    PrependNothing(Spelled(Settings(f)));
    assert ([Spelling(Server)] + Spelled(Settings(f)))[1..] == Spelled(Settings(f));
  }

  /** The flags that some command line produces are exactly the valid ones. */
  lemma ProducibleIffValid(f: Flags)
    ensures (exists args: seq<string> :: ParseArgs(args) == Ok(f)) <==> Valid(f)
  {
    if Valid(f) {
      RenderRoundTrip("bogo_shim", f);
    }
    forall args: seq<string> | ParseArgs(args) == Ok(f)
      ensures Valid(f)
    {
      AcceptedIsValid(args);
    }
  }

  lemma SpelledStep(ss: seq<Setting>, more: seq<string>)
    requires ss != []
    ensures var all := Spelled(ss) + more;
            |all| >= 2 && all[0] == Spelling(ss[0].flag) && all[1] == ss[0].value && all[2..] == Spelled(ss[1..]) + more
  {
    TwoInFront(Spelling(ss[0].flag), ss[0].value, Spelled(ss[1..]), more);
  }

  lemma TwoInFront(a: string, b: string, c: seq<string>, more: seq<string>)
    ensures var all := [a, b] + c + more;
            |all| >= 2 && all[0] == a && all[1] == b && all[2..] == c + more
  {}

  /** An unknown flag after any well-formed ones is never silently skipped. */
  lemma {:induction false} UnknownFlagRefused(f: Flags, ss: seq<Setting>, a: string, more: seq<string>)
    requires SetAll(f, ss).Ok? && Recognise(a) == None
    ensures ParseRest(f, Spelled(ss) + ([a] + more)) == Err(Unimplemented)
    decreases |ss|
  {
    if ss == [] {
      PrependNothing([a] + more);
    } else {
      RecogniseSpelling(ss[0].flag);
      UnknownFlagRefused(SetFlag(f, ss[0].flag, ss[0].value).flags, ss[1..], a, more);
      SpelledStep(ss, [a] + more);
    }
  }

  /** A flag at the end without its value is a usage error, unless it repeats -curves. */
  lemma {:induction false} MissingValueRefused(f: Flags, ss: seq<Setting>, flag: Flag)
    requires SetAll(f, ss).Ok? && flag != Server
    ensures ParseRest(f, Spelled(ss) + [Spelling(flag)])
            == Err(if flag == Curves && SetAll(f, ss).flags.clientCurve.Some? then Unimplemented else Usage)
    decreases |ss|
  {
    RecogniseSpelling(flag);
    if ss == [] {
      PrependNothing([Spelling(flag)]);
    } else {
      RecogniseSpelling(ss[0].flag);
      MissingValueRefused(SetFlag(f, ss[0].flag, ss[0].value).flags, ss[1..], flag);
      SpelledStep(ss, [Spelling(flag)]);
    }
  }
}
