/**
 * Option handling of the screenshot command (assets/js/puppeteer-img.js):
 * the argv parser, the integer validator, and the part of the main block that
 * turns the parsed strings into viewport and screenshot settings before the
 * browser is launched.
 */
module ScreenshotCli {
  import opened Wrappers
  import opened JsStrings

  // ---------------------------------------------------------------------------
  // The options record

  /** A field of the options record: JavaScript `null`, `undefined`, or a string. */
  datatype Slot = Null | Undefined | Str(text: string)

  /** JavaScript truthiness of a slot: only a non-empty string is truthy. */
  predicate Truthy(v: Slot) {
    v.Str? && v.text != ""
  }

  /** The record `parseArgs` fills in; `url` is absent (`undefined`) until the end. */
  datatype Options = Options(
    imageType: Slot,
    path: Slot,
    width: Slot,
    height: Slot,
    scaleFactor: Slot,
    x: Slot,
    y: Slot,
    clipWidth: Slot,
    clipHeight: Slot,
    url: Option<string>)

  /** The record before any argument is looked at. */
  function Defaults(): Options {
    Options(Str("png"), Null, Str("800"), Str("600"), Str("1"), Null, Null, Null, Null, None)
  }

  /** The fields a flag can set. */
  datatype Field = Type | Path | Width | Height | ScaleFactor | X | Y | ClipWidth | ClipHeight

  /** The field a flag spelling sets; `None` for a flag the parser ignores. */
  function FieldOf(flag: string): (f: Option<Field>)
    ensures f.Some? ==> StartsWith(flag, "-") && '=' !in flag
  {
    if flag == "-t" || flag == "--type" then Some(Type)
    else if flag == "-p" || flag == "--path" then Some(Path)
    else if flag == "-w" || flag == "--width" then Some(Width)
    else if flag == "-h" || flag == "--height" then Some(Height)
    else if flag == "-s" || flag == "--scale-factor" then Some(ScaleFactor)
    else if flag == "-x" || flag == "--x" then Some(X)
    else if flag == "-y" || flag == "--y" then Some(Y)
    else if flag == "--clip-width" then Some(ClipWidth)
    else if flag == "--clip-height" then Some(ClipHeight)
    else None
  }

  function Get(o: Options, f: Field): Slot {
    match f
    case Type => o.imageType
    case Path => o.path
    case Width => o.width
    case Height => o.height
    case ScaleFactor => o.scaleFactor
    case X => o.x
    case Y => o.y
    case ClipWidth => o.clipWidth
    case ClipHeight => o.clipHeight
  }

  /** The record with one field replaced. */
  function Set(o: Options, f: Field, v: Slot): (r: Options)
    ensures Get(r, f) == v
    ensures forall g :: g != f ==> Get(r, g) == Get(o, g)
    ensures r.url == o.url
  {
    match f
    case Type => o.(imageType := v)
    case Path => o.(path := v)
    case Width => o.(width := v)
    case Height => o.(height := v)
    case ScaleFactor => o.(scaleFactor := v)
    case X => o.(x := v)
    case Y => o.(y := v)
    case ClipWidth => o.(clipWidth := v)
    case ClipHeight => o.(clipHeight := v)
  }

  // ---------------------------------------------------------------------------
  // parseArgs

  /**
   * `[arg, value] = arg.split("=")`: the text before the first `=`, and the
   * text between the first and the second `=` (`undefined` without any `=`).
   */
  function SplitArg(arg: string): (r: (string, Slot))
    ensures '=' !in r.0
    ensures r.1.Str? ==> '=' !in r.1.text
  {
    var parts := Split(arg, '=');
    (parts[0], if |parts| > 1 then Str(parts[1]) else Undefined)
  }

  /** One turn of the parser's loop: the record after looking at `arg`. */
  function ApplyArg(o: Options, arg: string): Options {
    var split := SplitArg(arg);
    match FieldOf(split.0)
    case None => o
    case Some(f) => Set(o, f, split.1)
  }

  /** The record after looking at every argument of `args`, left to right. */
  function ApplyArgs(o: Options, args: seq<string>): Options
    decreases |args|
  {
    if args == [] then o
    else ApplyArg(ApplyArgs(o, args[..|args| - 1]), args[|args| - 1])
  }

  /** `args.find((arg) => !arg.startsWith("-"))`. */
  function FirstNonFlag(args: seq<string>): (u: Option<string>)
    ensures u.Some? ==> u.value in args && !StartsWith(u.value, "-")
    ensures u.None? ==> forall i :: 0 <= i < |args| ==> StartsWith(args[i], "-")
    ensures forall i :: (0 <= i < |args| && !StartsWith(args[i], "-") &&
                         (forall j :: 0 <= j < i ==> StartsWith(args[j], "-"))) ==> u == Some(args[i])
  {
    if args == [] then None
    else if !StartsWith(args[0], "-") then Some(args[0])
    else
      var u := FirstNonFlag(args[1..]);
      assert forall i :: 1 <= i < |args| ==> args[i] == args[1..][i - 1];
      u
  }

  /** The options `parseArgs` returns for `args`. */
  function Parsed(args: seq<string>): Options {
    ApplyArgs(Defaults(), args).(url := FirstNonFlag(args))
  }

  /** `parseArgs()` on the command-line arguments after the program name. */
  method ParseArgs(args: seq<string>) returns (options: Options)
    ensures options == Parsed(args)
  {
    options := Defaults();
    for i := 0 to |args|
      invariant options == ApplyArgs(Defaults(), args[..i])
    {
      var split := SplitArg(args[i]);
      var flag, value := split.0, split.1;
      if flag == "-t" || flag == "--type" {
        options := options.(imageType := value);
      } else if flag == "-p" || flag == "--path" {
        options := options.(path := value);
      } else if flag == "-w" || flag == "--width" {
        options := options.(width := value);
      } else if flag == "-h" || flag == "--height" {
        options := options.(height := value);
      } else if flag == "-s" || flag == "--scale-factor" {
        options := options.(scaleFactor := value);
      } else if flag == "-x" || flag == "--x" {
        options := options.(x := value);
      } else if flag == "-y" || flag == "--y" {
        options := options.(y := value);
      } else if flag == "--clip-width" {
        options := options.(clipWidth := value);
      } else if flag == "--clip-height" {
        options := options.(clipHeight := value);
      }
      assert args[..i + 1][..i] == args[..i];
    }
    assert args[..|args|] == args;
    options := options.(url := FirstNonFlag(args));
  }

  // ---------------------------------------------------------------------------
  // Properties of the parser

  /** Whether `arg` is a flag the parser maps onto field `f`. */
  predicate Sets(arg: string, f: Field) {
    FieldOf(SplitArg(arg).0) == Some(f)
  }

  /** Parsing `a` and then `b` is parsing `a + b`. */
  lemma {:induction false} ApplyArgsAppend(o: Options, a: seq<string>, b: seq<string>)
    ensures ApplyArgs(o, a + b) == ApplyArgs(ApplyArgs(o, a), b)
    decreases |b|
  {
    if b == [] {
      assert a + b == a;
    } else {
      var ab := a + b;
      assert ab[..|ab| - 1] == a + b[..|b| - 1];
      assert ab[|ab| - 1] == b[|b| - 1];
      ApplyArgsAppend(o, a, b[..|b| - 1]);
    }
  }

  /** Arguments that are not recognised flags leave the record as it was. */
  lemma {:induction false} UnrecognisedArgsChangeNothing(o: Options, args: seq<string>)
    requires forall i :: 0 <= i < |args| ==> FieldOf(SplitArg(args[i]).0).None?
    ensures ApplyArgs(o, args) == o
    decreases |args|
  {
    if args != [] {
      UnrecognisedArgsChangeNothing(o, args[..|args| - 1]);
    }
  }

  /** With no recognised flag every option keeps its default. */
  lemma NoFlagsGiveDefaults(args: seq<string>)
    requires forall i :: 0 <= i < |args| ==> FieldOf(SplitArg(args[i]).0).None?
    ensures ApplyArgs(Defaults(), args) == Defaults()
  {
    UnrecognisedArgsChangeNothing(Defaults(), args);
  }

  /** A field no argument sets keeps its value. */
  lemma {:induction false} UnsetFieldKeepsValue(o: Options, args: seq<string>, f: Field)
    requires forall i :: 0 <= i < |args| ==> !Sets(args[i], f)
    ensures Get(ApplyArgs(o, args), f) == Get(o, f)
    decreases |args|
  {
    if args != [] {
      UnsetFieldKeepsValue(o, args[..|args| - 1], f);
    }
  }

  /** The last argument that sets a field decides its value. */
  lemma {:induction false} LastOccurrenceWins(o: Options, args: seq<string>, f: Field, i: nat)
    requires i < |args| && Sets(args[i], f)
    requires forall j :: i < j < |args| ==> !Sets(args[j], f)
    ensures Get(ApplyArgs(o, args), f) == SplitArg(args[i]).1
    decreases |args|
  {
    if i < |args| - 1 {
      LastOccurrenceWins(o, args[..|args| - 1], f, i);
    }
  }

  /** How `flag + rest` splits when `rest` is empty or starts at the first `=`. */
  lemma SplitArgAfterFlag(flag: string, rest: string)
    requires '=' !in flag
    requires rest == [] || rest[0] == '='
    ensures SplitArg(flag + rest).0 == flag
    ensures rest == [] ==> SplitArg(flag + rest).1 == Undefined
    ensures rest != [] ==> SplitArg(flag + rest).1 == Str(Split(rest[1..], '=')[0])
  {
    if rest == [] {
      assert flag + rest == flag;
      SplitNoSeparator(flag, '=');
    } else {
      assert flag + rest == flag + ['='] + rest[1..];
      SplitAtFirst(flag, '=', rest[1..]);
    }
  }

  /** `flag=value` sets the flag's field to the text between the first and the second `=`. */
  lemma FlagValue(o: Options, flag: string, value: string, tail: string)
    requires FieldOf(flag).Some?
    requires '=' !in value
    requires tail == [] || tail[0] == '='
    ensures ApplyArg(o, flag + "=" + value + tail) == Set(o, FieldOf(flag).value, Str(value))
  {
    var rest := "=" + value + tail;
    assert flag + "=" + value + tail == flag + rest;
    SplitArgAfterFlag(flag, rest);
    assert rest[1..] == value + tail;
    if tail == [] {
      assert value + tail == value;
      SplitNoSeparator(value, '=');
    } else {
      assert value + tail == value + ['='] + tail[1..];
      SplitAtFirst(value, '=', tail[1..]);
    }
  }

  /** A flag without `=` sets its field to `undefined`. */
  lemma FlagWithoutValue(o: Options, flag: string)
    requires FieldOf(flag).Some?
    ensures ApplyArg(o, flag) == Set(o, FieldOf(flag).value, Undefined)
  {
    SplitArgAfterFlag(flag, []);
    assert flag + [] == flag;
  }

  /** Two spellings of the same flag have the same effect, whatever follows them. */
  lemma SpellingsAgree(o: Options, a: string, b: string, rest: string)
    requires FieldOf(a).Some? && FieldOf(a) == FieldOf(b)
    requires rest == [] || rest[0] == '='
    ensures ApplyArg(o, a + rest) == ApplyArg(o, b + rest)
  {
    SplitArgAfterFlag(a, rest);
    SplitArgAfterFlag(b, rest);
  }

  /** The short spelling of each flag that has one. */
  lemma ShortSpellings()
    ensures FieldOf("-t") == Some(Type) && FieldOf("-p") == Some(Path)
    ensures FieldOf("-w") == Some(Width) && FieldOf("-h") == Some(Height)
    ensures FieldOf("-s") == Some(ScaleFactor) && FieldOf("-x") == Some(X) && FieldOf("-y") == Some(Y)
  {
  }

  /** The long spelling of each flag, and the two clip flags that have no short one. */
  lemma LongSpellings()
    ensures FieldOf("--type") == Some(Type) && FieldOf("--path") == Some(Path)
    ensures FieldOf("--width") == Some(Width) && FieldOf("--height") == Some(Height)
    ensures FieldOf("--scale-factor") == Some(ScaleFactor)
    ensures FieldOf("--x") == Some(X) && FieldOf("--y") == Some(Y)
    ensures FieldOf("--clip-width") == Some(ClipWidth) && FieldOf("--clip-height") == Some(ClipHeight)
  {
  }

  /** An argument not starting with `-` (such as the URL) sets no field. */
  lemma PositionalSetsNothing(o: Options, arg: string)
    requires !StartsWith(arg, "-")
    ensures ApplyArg(o, arg) == o
  {
    var parts := Split(arg, '=');
    JoinSplit(arg, '=');
    assert parts[0] <= arg;
  }

  // ---------------------------------------------------------------------------
  // _validateInteger

  /** A validated number: the `null` of a rejected value, NaN, or an integer. */
  datatype Number = NullNum | NaN | Int(value: int)

  /** `parseInt(value)`: `null` and `undefined` are parsed as the words "null" and "undefined". */
  function ParseSlot(v: Slot): (r: Option<int>)
    ensures !Truthy(v) ==> r.None?
  {
    match v
    case Str(t) => ParseInt(t)
    case _ => None
  }

  /** `_validateInteger(value)`. The error message it logs is not modelled. */
  function ValidateInteger(v: Slot): (r: Number)
    ensures r == NaN <==> !Truthy(v)
    ensures r == NullNum <==> Truthy(v) && ParseSlot(v) in {None, Some(0)}
    ensures r.Int? ==> r.value != 0 && ParseSlot(v) == Some(r.value)
  {
    var parsed := ParseSlot(v);
    if Truthy(v) && (parsed.None? || parsed.value == 0) then NullNum
    else if parsed.None? then NaN
    else Int(parsed.value)
  }

  /** A positive or negative decimal number validates to itself. */
  lemma ValidateDecimal(n: nat)
    requires n > 0
    ensures ValidateInteger(Str(DecimalString(n))) == Int(n)
    ensures ValidateInteger(Str("-" + DecimalString(n))) == Int(-(n as int))
  {
    ParseIntDecimal(n);
  }

  /** Zero is rejected like garbage: a clip origin of "0" validates to null. */
  lemma ZeroIsRejected()
    ensures ValidateInteger(Str("0")) == NullNum
    ensures ValidateInteger(Str("abc")) == NullNum
    ensures ValidateInteger(Str("")) == NaN
  {
    ParseIntDecimal(0);
    assert DecimalString(0) == "0";
    ParseIntNaN("abc");
  }

  // ---------------------------------------------------------------------------
  // The main block, up to the launch of the browser

  /** `validated || fallback`: null, NaN and 0 are falsy. */
  function OrElse(v: Number, fallback: int): (r: int)
    ensures r == fallback || v == Int(r)
    ensures fallback != 0 ==> r != 0
    ensures v.Int? && v.value != 0 ==> r == v.value
  {
    if v.Int? && v.value != 0 then v.value else fallback
  }

  /** `["jpeg", "png"].includes(type) ? type : "png"`. */
  function ScreenshotType(t: Slot): (r: string)
    ensures r == "jpeg" || r == "png"
    ensures r == "jpeg" <==> t == Str("jpeg")
  {
    if t == Str("jpeg") || t == Str("png") then t.text else "png"
  }

  /** `path || ./image.<type>`: never empty. */
  function OutputPath(p: Slot, imageType: string): (r: string)
    ensures Truthy(p) ==> r == p.text
    ensures !Truthy(p) ==> r == "./image." + imageType
    ensures r != ""
  {
    if Truthy(p) then p.text else "./image." + imageType
  }

  /** The clip parameters `x`, `y`, `width`, `height`, in the order the source lists them. */
  function ClipParams(o: Options): seq<Slot> {
    [o.x, o.y, o.clipWidth, o.clipHeight]
  }

  /** `Object.values(clipParams).every((val) => val !== null)`. */
  predicate HasClipParams(o: Options) {
    forall i :: 0 <= i < |ClipParams(o)| ==> ClipParams(o)[i] != Null
  }

  datatype Viewport = Viewport(width: int, height: int, deviceScaleFactor: int)

  /** The clip rectangle object, one field per clip parameter. */
  datatype Clip = Clip(x: Number, y: Number, width: Number, height: Number)

  datatype Screenshot = Screenshot(imageType: string, path: string, clip: Option<Clip>)

  /** Everything the browser session is given. */
  datatype Settings = Settings(url: string, viewport: Viewport, screenshot: Screenshot)

  /** What the main block computes from the parsed options, up to the launch of the browser. */
  function Resolve(o: Options): Result<Settings, string> {
    if o.url.None? || o.url.value == "" then Failure("URL required")
    else
      var imageType := ScreenshotType(o.imageType);
      Success(Settings(
        o.url.value,
        Viewport(OrElse(ValidateInteger(o.width), 800), OrElse(ValidateInteger(o.height), 600),
                 OrElse(ValidateInteger(o.scaleFactor), 1)),
        Screenshot(imageType, OutputPath(o.path, imageType),
                   if HasClipParams(o)
                   then Some(Clip(ValidateInteger(o.x), ValidateInteger(o.y),
                                  ValidateInteger(o.clipWidth), ValidateInteger(o.clipHeight)))
                   else None)))
  }

  /** The loop over the clip parameters that validates each of them. */
  method ValidateAll(params: seq<Slot>) returns (values: seq<Number>)
    ensures |values| == |params|
    ensures forall j :: 0 <= j < |params| ==> values[j] == ValidateInteger(params[j])
  {
    values := [];
    for i := 0 to |params|
      invariant |values| == i
      invariant forall j :: 0 <= j < i ==> values[j] == ValidateInteger(params[j])
    {
      values := values + [ValidateInteger(params[i])];
    }
  }

  /** The main block from the URL check to the clip rectangle. */
  method ResolveSettings(options: Options) returns (r: Result<Settings, string>)
    ensures r == Resolve(options)
    ensures r.Failure? <==> options.url.None? || options.url.value == ""
    ensures r.Failure? ==> r.error == "URL required"
    ensures r.Success? ==> r.value.url == options.url.value
    ensures r.Success? ==> r.value.viewport == Viewport(
      OrElse(ValidateInteger(options.width), 800),
      OrElse(ValidateInteger(options.height), 600),
      OrElse(ValidateInteger(options.scaleFactor), 1))
    ensures r.Success? ==> r.value.screenshot.imageType == ScreenshotType(options.imageType)
    ensures r.Success? ==> r.value.screenshot.path == OutputPath(options.path, ScreenshotType(options.imageType))
    ensures r.Success? ==> (r.value.screenshot.clip.Some? <==> HasClipParams(options))
    ensures r.Success? && r.value.screenshot.clip.Some? ==>
      r.value.screenshot.clip.value == Clip(ValidateInteger(options.x), ValidateInteger(options.y),
                                            ValidateInteger(options.clipWidth), ValidateInteger(options.clipHeight))
  {
    if options.url.None? || options.url.value == "" {
      return Failure("URL required");
    }
    var viewport := Viewport(
      OrElse(ValidateInteger(options.width), 800),
      OrElse(ValidateInteger(options.height), 600),
      OrElse(ValidateInteger(options.scaleFactor), 1));
    var imageType := ScreenshotType(options.imageType);
    var path := OutputPath(options.path, imageType);
    var clip: Option<Clip> := None;
    if HasClipParams(options) {
      var v := ValidateAll(ClipParams(options));
      clip := Some(Clip(v[0], v[1], v[2], v[3]));
    }
    r := Success(Settings(options.url.value, viewport, Screenshot(imageType, path, clip)));
  }

  /** The main block on the raw arguments: the URL check stops everything else. */
  method Prepare(args: seq<string>) returns (r: Result<Settings, string>)
    ensures r == Resolve(Parsed(args))
    ensures r.Failure? <==> FirstNonFlag(args).None? || FirstNonFlag(args) == Some("")
    ensures r.Failure? ==> r.error == "URL required"
    ensures r.Success? ==> r.value.url == FirstNonFlag(args).value
  {
    var options := ParseArgs(args);
    r := ResolveSettings(options);
  }

  /** Whatever the arguments, none of the viewport numbers ends up 0. */
  lemma ViewportNeverZero(o: Options)
    ensures OrElse(ValidateInteger(o.width), 800) != 0
    ensures OrElse(ValidateInteger(o.height), 600) != 0
    ensures OrElse(ValidateInteger(o.scaleFactor), 1) != 0
  {
  }
}
