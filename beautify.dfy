/** `beautifyText`: wrapping a text in ANSI terminal attribute codes. */
module Beautify {
  import opened JsStrings

  /** `beautifyText.textAttributes`: each attribute name with its start code,
      and for all but `reset` an `end_` name with the code that undoes it. The
      table is a plain object, so a lookup also finds the keys it inherits
      from `Object.prototype`; the two of those that are already lower case,
      `constructor` and `__proto__`, give the `Object` function and the
      prototype object, which string concatenation turns into the strings
      below. Any other name looks up `undefined`. */
  function TextAttribute(name: string): Option<string>
  {
    match name
    case "reset"             => Some("\U{001B}[0m")
    case "bold"               => Some("\U{001B}[1m")
    case "end_bold"           => Some("\U{001B}[21m")
    case "dim"                => Some("\U{001B}[2m")
    case "end_dim"            => Some("\U{001B}[22m")
    case "italic"             => Some("\U{001B}[3m")
    case "end_italic"         => Some("\U{001B}[23m")
    case "underline"          => Some("\U{001B}[4m")
    case "end_underline"      => Some("\U{001B}[24m")
    case "blink"              => Some("\U{001B}[5m")
    case "end_blink"          => Some("\U{001B}[25m")
    case "unknown"            => Some("\U{001B}[6m")
    case "end_unknown"        => Some("\U{001B}[26m")
    case "inverse"            => Some("\U{001B}[7m")
    case "end_inverse"        => Some("\U{001B}[27m")
    case "hidden"             => Some("\U{001B}[8m")
    case "end_hidden"         => Some("\U{001B}[28m")
    case "strikethrough"      => Some("\U{001B}[9m")
    case "end_strikethrough"  => Some("\U{001B}[29m")
    case "fgblack"            => Some("\U{001B}[30m")
    case "end_fgblack"        => Some("\U{001B}[39m")
    case "fgred"              => Some("\U{001B}[31m")
    case "end_fgred"          => Some("\U{001B}[39m")
    case "fggreen"            => Some("\U{001B}[32m")
    case "end_fggreen"        => Some("\U{001B}[39m")
    case "fgyellow"           => Some("\U{001B}[33m")
    case "end_fgyellow"       => Some("\U{001B}[39m")
    case "fgblue"             => Some("\U{001B}[34m")
    case "end_fgblue"         => Some("\U{001B}[39m")
    case "fgmagenta"          => Some("\U{001B}[35m")
    case "end_fgmagenta"      => Some("\U{001B}[39m")
    case "fgcyan"             => Some("\U{001B}[36m")
    case "end_fgcyan"         => Some("\U{001B}[39m")
    case "fgwhite"            => Some("\U{001B}[37m")
    case "end_fgwhite"        => Some("\U{001B}[39m")
    case "fggrey"             => Some("\U{001B}[90m")
    case "end_fggrey"         => Some("\U{001B}[39m")
    case "bgblack"            => Some("\U{001B}[40m")
    case "end_bgblack"        => Some("\U{001B}[49m")
    case "bgred"              => Some("\U{001B}[41m")
    case "end_bgred"          => Some("\U{001B}[49m")
    case "bggreen"            => Some("\U{001B}[42m")
    case "end_bggreen"        => Some("\U{001B}[49m")
    case "bgyellow"           => Some("\U{001B}[43m")
    case "end_bgyellow"       => Some("\U{001B}[49m")
    case "bgblue"             => Some("\U{001B}[44m")
    case "end_bgblue"         => Some("\U{001B}[49m")
    case "bgmagenta"          => Some("\U{001B}[45m")
    case "end_bgmagenta"      => Some("\U{001B}[49m")
    case "bgcyan"             => Some("\U{001B}[46m")
    case "end_bgcyan"         => Some("\U{001B}[49m")
    case "bgwhite"            => Some("\U{001B}[47m")
    case "end_bgwhite"        => Some("\U{001B}[49m")
    case "constructor"        => Some("function Object() { [native code] }")
    case "__proto__"          => Some("[object Object]")
    case _ => None
  }

  /** What adding `undefined` to a string gives in JavaScript: the lookup of
      an `end_` name that is not in the table. */
  const Undefined: string := "undefined"

  /** The options argument: an array of names, or any single name, which is
      treated as an array holding just that name. */
  datatype Options = Single(option: string) | Many(options: seq<string>)

  function OptionList(options: Options): seq<string>
  {
    match options
    case Single(option) => [option]
    case Many(names) => names
  }

  /** The code one option adds in front of the text: its attribute, looked
      up in lower case, or nothing when the table does not know it. */
  function StartCode(table: string -> Option<string>, option: string): string
  {
    match table(Lower(option))
    case Some(code) => code
    case None => ""
  }

  /** The code one option adds after the text: the attribute named `end_`
      and the option, `undefined` when the table has none, and nothing for an
      option the table does not know. */
  function EndCode(table: string -> Option<string>, option: string): string
  {
    var key := Lower(option);
    if table(key).None? then ""
    else match table("end_" + key)
      case Some(code) => code
      case None => Undefined
  }

  /** The start codes of the options, in the order of the options. */
  function StartCodes(table: string -> Option<string>, options: seq<string>): string
  {
    if options == [] then ""
    else StartCodes(table, options[..|options| - 1]) + StartCode(table, options[|options| - 1])
  }

  /** The end codes of the options, in the reverse order of the options. */
  function EndCodes(table: string -> Option<string>, options: seq<string>): string
  {
    if options == [] then ""
    else EndCode(table, options[|options| - 1]) + EndCodes(table, options[..|options| - 1])
  }

  /** The text wrapped in the codes of all the options in turn. */
  function Wrapped(table: string -> Option<string>, text: string, options: seq<string>): string
  {
    StartCodes(table, options) + text + EndCodes(table, options)
  }

  /** `beautifyText(text, options)`: the loop that gathers the start codes
      in order and the end codes in reverse order around the text. */
  method BeautifyText(text: string, options: Options) returns (r: string)
    ensures r == Wrapped(TextAttribute, text, OptionList(options))
  {
    var names := OptionList(options);
    var attributes, endAttributes := "", "";
    var idx := 0;
    while idx < |names|
      invariant idx <= |names|
      invariant attributes == StartCodes(TextAttribute, names[..idx])
      invariant endAttributes == EndCodes(TextAttribute, names[..idx])
    {
      assert names[..idx + 1][..idx] == names[..idx];
      var option := Lower(names[idx]);
      var code := TextAttribute(option);
      if code.Some? {
        attributes := attributes + code.value;
        var endCode := TextAttribute("end_" + option);
        endAttributes := (if endCode.Some? then endCode.value else Undefined) + endAttributes;
      }
      idx := idx + 1;
    }
    assert names[..idx] == names;
    r := attributes + text + endAttributes;
  }

  /** The first option's codes are the outermost: the result is the text
      wrapped in the other options, then in the first one, so that the end
      codes close in the reverse order of the start codes. */
  lemma {:induction false} FirstOptionOutermost(table: string -> Option<string>, text: string, first: string, rest: seq<string>)
    ensures Wrapped(table, text, [first] + rest)
            == StartCode(table, first) + Wrapped(table, text, rest) + EndCode(table, first)
  {
    StartCodesCons(table, first, rest);
    EndCodesCons(table, first, rest);
    var start, starts, ends, end := StartCode(table, first), StartCodes(table, rest), EndCodes(table, rest), EndCode(table, first);
    assert (start + starts) + text + (ends + end) == start + (starts + text + ends) + end;
  }

  /** The start code of the first option comes first. */
  lemma {:induction false} StartCodesCons(table: string -> Option<string>, first: string, rest: seq<string>)
    ensures StartCodes(table, [first] + rest) == StartCode(table, first) + StartCodes(table, rest)
  {
    var all := [first] + rest;
    if rest == [] {
      assert all[..0] == [];
    } else {
      var init := rest[..|rest| - 1];
      assert all[..|all| - 1] == [first] + init;
      var last := StartCode(table, rest[|rest| - 1]);
      assert all[|all| - 1] == rest[|rest| - 1];
      assert StartCodes(table, all) == StartCodes(table, [first] + init) + last;
      assert StartCodes(table, rest) == StartCodes(table, init) + last;
      StartCodesCons(table, first, init);
      assert (StartCode(table, first) + StartCodes(table, init)) + last
          == StartCode(table, first) + (StartCodes(table, init) + last);
    }
  }

  /** The end code of the first option comes last. */
  lemma {:induction false} EndCodesCons(table: string -> Option<string>, first: string, rest: seq<string>)
    ensures EndCodes(table, [first] + rest) == EndCodes(table, rest) + EndCode(table, first)
  {
    var all := [first] + rest;
    if rest == [] {
      assert all[..0] == [];
    } else {
      var init := rest[..|rest| - 1];
      assert all[..|all| - 1] == [first] + init;
      var last := EndCode(table, rest[|rest| - 1]);
      assert all[|all| - 1] == rest[|rest| - 1];
      assert EndCodes(table, all) == last + EndCodes(table, [first] + init);
      EndCodesCons(table, first, init);
      assert last + (EndCodes(table, init) + EndCode(table, first))
          == (last + EndCodes(table, init)) + EndCode(table, first);
    }
  }

  /** An option the table does not know leaves the result as it is. */
  lemma UnknownOptionIgnored(table: string -> Option<string>, text: string, option: string, rest: seq<string>)
    requires table(Lower(option)) == None
    ensures Wrapped(table, text, [option] + rest) == Wrapped(table, text, rest)
  {
    FirstOptionOutermost(table, text, option, rest);
  }

  /** With no option the text comes back unchanged. */
  lemma NoOptionsKeepText(table: string -> Option<string>, text: string)
    ensures Wrapped(table, text, []) == text
  {
  }

  /** A known option with an `end_` entry puts the text between its start
      code and its end code. */
  lemma PairedOption(table: string -> Option<string>, text: string, option: string)
    requires table(Lower(option)).Some? && table("end_" + Lower(option)).Some?
    ensures Wrapped(table, text, [option])
            == table(Lower(option)).value + text + table("end_" + Lower(option)).value
  {
    FirstOptionOutermost(table, text, option, []);
  }

  /** A known option without an `end_` entry is closed by the word
      `undefined`. */
  lemma UnpairedOption(table: string -> Option<string>, text: string, option: string)
    requires table(Lower(option)).Some? && table("end_" + Lower(option)) == None
    ensures Wrapped(table, text, [option]) == table(Lower(option)).value + text + Undefined
  {
    FirstOptionOutermost(table, text, option, []);
  }

  /** A single option is taken as an array holding just that option: the
      text between the option's start and end codes. */
  lemma SingleOption(table: string -> Option<string>, text: string, option: string)
    ensures Wrapped(table, text, OptionList(Single(option)))
            == Wrapped(table, text, OptionList(Many([option])))
            == StartCode(table, option) + text + EndCode(table, option)
  {
    FirstOptionOutermost(table, text, option, []);
  }

  /** Letter case of an option does not matter. */
  lemma OptionCaseIgnored(table: string -> Option<string>, option: string)
    ensures StartCode(table, Lower(option)) == StartCode(table, option)
    ensures EndCode(table, Lower(option)) == EndCode(table, option)
  {
    LowerIdempotent(option);
  }

  /** `reset` is the one start attribute without an `end_` entry, so the
      text it wraps ends with the word `undefined`. */
  lemma ResetUnpaired(text: string)
    ensures Wrapped(TextAttribute, text, ["reset"]) == "\U{001B}[0m" + text + Undefined
  {
    LowerOfLower("reset");
    assert "end_" + "reset" == "end_reset";
    UnpairedOption(TextAttribute, text, "reset");
  }

  /** The inherited key `constructor` is found too: the string form of the
      `Object` function goes in front of the text and, there being no `end_`
      entry, `undefined` after it. */
  lemma ConstructorKeyFound(text: string)
    ensures Wrapped(TextAttribute, text, ["constructor"])
            == "function Object() { [native code] }" + text + Undefined
  {
    LowerOfLower("constructor");
    assert "end_" + "constructor" == "end_constructor";
    UnpairedOption(TextAttribute, text, "constructor");
  }

  /** The inherited key `__proto__` gives the string form of the prototype
      object in front of the text and `undefined` after it. */
  lemma ProtoKeyFound(text: string)
    ensures Wrapped(TextAttribute, text, ["__proto__"]) == "[object Object]" + text + Undefined
  {
    LowerOfLower("__proto__");
    assert "end_" + "__proto__" == "end___proto__";
    UnpairedOption(TextAttribute, text, "__proto__");
  }
}
