/** `parseExtensionLine`: the `Sec-WebSocket-Extensions` header of RFC 6455 section 9.1, and its round trip. */
module Extensions {
  datatype Result<+T> = Ok(value: T) | InvalidCharacter(character: char)

  /** A parameter without a value is `true`. */
  datatype Value = True | Text(text: string)

  datatype Extension = Extension(title: string, params: map<string, Value>)

  predicate Reserved(c: char) {
    c in {'(', ')', '<', '>', '@', ':', '\\', '/', '[', ']', '?', '{', '}', '\t'}
  }

  /** The variables of the parser; an empty `extTitle` or `argTitle` counts as none. */
  datatype Parser = Parser(word: string, extTitle: string, argTitle: string, quoted: bool, escaped: bool,
                           args: seq<(string, Value)>, exts: seq<Extension>)

  const BEGIN := Parser("", "", "", false, false, [], [])

  /** `Object.fromEntries`: of several entries for a key the last counts. */
  function FromEntries(args: seq<(string, Value)>): map<string, Value> {
    if args == [] then map[]
    else FromEntries(args[..|args| - 1])[args[|args| - 1].0 := args[|args| - 1].1]
  }

  function NextExt(p: Parser): Parser {
    p.(exts := p.exts + [Extension(p.extTitle, FromEntries(p.args))], args := [], extTitle := "")
  }

  function ConsumeArg(p: Parser): Parser {
    if p.argTitle != "" then
      p.(args := p.args + [(p.argTitle, if p.word != "" then Text(p.word) else True)], word := "", argTitle := "")
    else p.(args := p.args + [(p.word, True)], word := "")
  }

  function TakeTitle(p: Parser): Parser {
    p.(extTitle := p.word, word := "")
  }

  /** One character. */
  function Consume(p: Parser, c: char): Result<Parser> {
    if c == '"' && !p.escaped then
      var q := p.(quoted := !p.quoted);
      Ok(if !q.quoted && q.argTitle != "" then ConsumeArg(q) else q)
    else if p.quoted then
      if c == '\\' && !p.escaped then Ok(p.(escaped := true))
      else Ok(p.(escaped := false, word := p.word + [c]))
    else if c == '=' then Ok(p.(argTitle := p.word, word := ""))
    else if c == ' ' then Ok(if p.word != "" then ConsumeArg(p) else p)
    else if c == ';' then Ok(if p.extTitle == "" then TakeTitle(p) else p)
    else if c == ',' then
      Ok(NextExt(if p.extTitle == "" then TakeTitle(p) else if p.word != "" then ConsumeArg(p) else p))
    else if Reserved(c) then InvalidCharacter(c)
    else Ok(p.(word := p.word + [c]))
  }

  function ConsumeAll(p: Parser, line: string): Result<Parser>
    decreases |line|
  {
    if line == "" then Ok(p)
    else
      match Consume(p, line[0])
      case Ok(q) => ConsumeAll(q, line[1..])
      case InvalidCharacter(c) => InvalidCharacter(c)
  }

  function Finish(p: Parser): seq<Extension> {
    var q := if p.extTitle == "" then TakeTitle(p) else if p.argTitle != "" || p.word != "" then ConsumeArg(p) else p;
    if q.extTitle != "" then NextExt(q).exts else q.exts
  }

  function Parse(line: string): Result<seq<Extension>> {
    match ConsumeAll(BEGIN, line)
    case Ok(p) => Ok(Finish(p))
    case InvalidCharacter(c) => InvalidCharacter(c)
  }

  /** The parser itself: one pass over the line. */
  method ParseExtensionLine(line: string) returns (r: Result<seq<Extension>>)
    ensures r == Parse(line)
  {
    var word, extTitle, argTitle := "", "", "";
    var quoted, escaped := false, false;
    var args: seq<(string, Value)> := [];
    var exts: seq<Extension> := [];
    for i := 0 to |line|
      invariant ConsumeAll(BEGIN, line) == ConsumeAll(Parser(word, extTitle, argTitle, quoted, escaped, args, exts), line[i..])
    {
      var c := line[i];
      ghost var p := Parser(word, extTitle, argTitle, quoted, escaped, args, exts);
      assert line[i..][0] == c && line[i..][1..] == line[i + 1..];
      if c == '"' && !escaped {
        quoted := !quoted;
        if !quoted && argTitle != "" {
          args := args + [(argTitle, if word != "" then Text(word) else True)];
          word, argTitle := "", "";
        }
      } else if quoted {
        if c == '\\' && !escaped {
          escaped := true;
        } else {
          escaped := false;
          word := word + [c];
        }
      } else {
        if c == '=' {
          argTitle, word := word, "";
        } else if c == ' ' {
          if word != "" {
            args, word, argTitle := ArgConsumed(args, argTitle, word);
          }
        } else if c == ';' {
          if extTitle == "" {
            extTitle, word := word, "";
          }
        } else if c == ',' {
          if extTitle == "" {
            extTitle, word := word, "";
          } else if word != "" {
            args, word, argTitle := ArgConsumed(args, argTitle, word);
          }
          exts := exts + [Extension(extTitle, FromEntries(args))];
          args, extTitle := [], "";
        } else if Reserved(c) {
          return InvalidCharacter(c);
        } else {
          word := word + [c];
        }
      }
      assert Consume(p, c) == Ok(Parser(word, extTitle, argTitle, quoted, escaped, args, exts));
    }
    assert line[|line|..] == "";
    if extTitle == "" {
      extTitle, word := word, "";
    } else if argTitle != "" || word != "" {
      args, word, argTitle := ArgConsumed(args, argTitle, word);
    }
    if extTitle != "" {
      exts := exts + [Extension(extTitle, FromEntries(args))];
    }
    r := Ok(exts);
  }

  /** `consumeArg` */
  method ArgConsumed(args: seq<(string, Value)>, argTitle: string, word: string)
    returns (args': seq<(string, Value)>, word': string, argTitle': string)
    ensures word' == "" && argTitle' == ""
    ensures args' == args + [if argTitle != "" then (argTitle, if word != "" then Text(word) else True) else (word, True)]
  {
    if argTitle != "" {
      args' := args + [(argTitle, if word != "" then Text(word) else True)];
    } else {
      args' := args + [(word, True)];
    }
    word', argTitle' := "", "";
  }

  // ---- printing

  datatype ParamValue = Flag | Token(token: string) | Quoted(text: string)

  datatype Param = Param(name: string, value: ParamValue)

  datatype Offer = Offer(title: string, params: seq<Param>)

  /** Characters that mean nothing to the parser: all those a token may have, and more. */
  predicate TokenChar(c: char) {
    c !in "()<>@:\\/[]?{}\t" && c !in "\"= ;,"
  }

  /** The characters of a token in RFC 7230 section 3.2.6. */
  predicate StandardChar(c: char) {
    'a' <= c <= 'z' || 'A' <= c <= 'Z' || '0' <= c <= '9' || c in "!#$%&'*+-.^_`|~"
  }

  predicate IsToken(s: string) {
    s != "" && forall i :: 0 <= i < |s| ==> TokenChar(s[i])
  }

  predicate ParamOk(p: Param) {
    IsToken(p.name) && (p.value.Token? ==> IsToken(p.value.token))
  }

  predicate OfferOk(o: Offer) {
    IsToken(o.title) && forall i :: 0 <= i < |o.params| ==> ParamOk(o.params[i])
  }

  function Escape(s: string): string {
    if s == "" then "" else (if s[0] == '"' || s[0] == '\\' then ['\\', s[0]] else [s[0]]) + Escape(s[1..])
  }

  function PrintParam(p: Param): string {
    match p.value
    case Flag => p.name
    case Token(token) => p.name + "=" + token
    case Quoted(text) => p.name + "=\"" + Escape(text) + "\""
  }

  function PrintParams(params: seq<Param>): string {
    if params == [] then "" else "; " + PrintParam(params[0]) + PrintParams(params[1..])
  }

  function PrintOffer(o: Offer): string {
    o.title + PrintParams(o.params)
  }

  function Print(offers: seq<Offer>): string {
    if offers == [] then ""
    else PrintOffer(offers[0]) + if |offers| == 1 then "" else ", " + Print(offers[1..])
  }

  /** What a parameter stands for; an empty quoted value is lost. */
  function EntryOf(p: Param): (string, Value) {
    (p.name, match p.value
             case Flag => True
             case Token(token) => Text(token)
             case Quoted(text) => if text == "" then True else Text(text))
  }

  function EntriesOf(params: seq<Param>): (es: seq<(string, Value)>)
    ensures |es| == |params|
  {
    seq(|params|, i requires 0 <= i < |params| => EntryOf(params[i]))
  }

  function ExtensionOf(o: Offer): Extension {
    Extension(o.title, FromEntries(EntriesOf(o.params)))
  }

  function ExtensionsOf(offers: seq<Offer>): (es: seq<Extension>)
    ensures |es| == |offers|
  {
    seq(|offers|, i requires 0 <= i < |offers| => ExtensionOf(offers[i]))
  }

  // ---- reading printed pieces

  lemma {:induction false} ConsumeConcat(p: Parser, a: string, b: string)
    ensures ConsumeAll(p, a + b)
         == if ConsumeAll(p, a).Ok? then ConsumeAll(ConsumeAll(p, a).value, b) else ConsumeAll(p, a)
    decreases |a|
  {
    hide Consume;
    if a == "" {
      assert a + b == b;
    } else {
      assert (a + b)[1..] == a[1..] + b && (a + b)[0] == a[0];
      if Consume(p, a[0]).Ok? {
        ConsumeConcat(Consume(p, a[0]).value, a[1..], b);
      }
    }
  }

  lemma ConsumeOne(p: Parser, c: char)
    ensures ConsumeAll(p, [c]) == Consume(p, c)
  {
    hide Consume;
    assert [c][1..] == "";
  }

  lemma {:induction false} ConsumeToken(p: Parser, s: string)
    requires !p.quoted && !p.escaped && forall i :: 0 <= i < |s| ==> TokenChar(s[i])
    ensures ConsumeAll(p, s) == Ok(p.(word := p.word + s))
    decreases |s|
  {
    if s == "" {
      assert p.word + s == p.word;
    } else {
      var q := p.(word := p.word + [s[0]]);
      assert TokenChar(s[0]);
      assert Consume(p, s[0]) == Ok(q);
      ConsumeToken(q, s[1..]);
      assert q.word + s[1..] == p.word + s;
    }
  }

  lemma {:induction false} ConsumeEscaped(p: Parser, s: string)
    requires p.quoted && !p.escaped
    ensures ConsumeAll(p, Escape(s)) == Ok(p.(word := p.word + s))
    decreases |s|
  {
    if s == "" {
      assert p.word + s == p.word;
    } else {
      var q := p.(word := p.word + [s[0]]);
      var first := if s[0] == '"' || s[0] == '\\' then ['\\', s[0]] else [s[0]];
      assert ConsumeAll(p, first) == Ok(q) by {
        EscapedChar(p, s[0]);
      }
      ConsumeConcat(p, first, Escape(s[1..]));
      ConsumeEscaped(q, s[1..]);
      assert q.word + s[1..] == p.word + s;
    }
  }

  lemma EscapedChar(p: Parser, c: char)
    requires p.quoted && !p.escaped
    ensures ConsumeAll(p, if c == '"' || c == '\\' then ['\\', c] else [c]) == Ok(p.(word := p.word + [c]))
  {
    if c == '"' || c == '\\' {
      var q := p.(escaped := true);
      assert ConsumeAll(q, [c]) == Consume(q, c) by { ConsumeOne(q, c); }
      assert ['\\', c][1..] == [c];
    } else {
      ConsumeOne(p, c);
    }
  }

  /** The parser before the title of an extension. */
  function Fresh(exts: seq<Extension>): Parser {
    Parser("", "", "", false, false, [], exts)
  }

  /** The parser before a parameter. */
  function Ready(title: string, args: seq<(string, Value)>, exts: seq<Extension>): Parser {
    Parser("", title, "", false, false, args, exts)
  }

  /** The parser behind a parameter, which may still wait in the word. */
  function Behind(title: string, args: seq<(string, Value)>, exts: seq<Extension>, p: Param): Parser {
    match p.value
    case Flag => Parser(p.name, title, "", false, false, args, exts)
    case Token(token) => Parser(token, title, p.name, false, false, args, exts)
    case Quoted(_) => Ready(title, args + [EntryOf(p)], exts)
  }

  /** Whatever comes next, a parameter, an extension or the end, finds the extension `title` with the entries `args`. */
  ghost predicate Holding(p: Parser, title: string, args: seq<(string, Value)>, exts: seq<Extension>) {
    && ConsumeAll(p, "; ") == Ok(Ready(title, args, exts))
    && ConsumeAll(p, ", ") == Ok(Fresh(exts + [Extension(title, FromEntries(args))]))
    && Finish(p) == exts + [Extension(title, FromEntries(args))]
  }

  lemma ConsumeTwo(p: Parser, c: char, d: char)
    requires Consume(p, c).Ok?
    ensures ConsumeAll(p, [c, d]) == Consume(Consume(p, c).value, d)
  {
    hide Consume;
    assert [c, d][1..] == [d];
    ConsumeOne(Consume(p, c).value, d);
  }

  lemma TitleHolds(title: string, exts: seq<Extension>)
    requires title != ""
    ensures Holding(Parser(title, "", "", false, false, [], exts), title, [], exts)
  {
    var p := Parser(title, "", "", false, false, [], exts);
    ConsumeTwo(p, ';', ' ');
    ConsumeTwo(p, ',', ' ');
    assert [';', ' '] == "; " && [',', ' '] == ", ";
  }

  lemma ParamHolds(title: string, args: seq<(string, Value)>, exts: seq<Extension>, param: Param)
    requires title != "" && ParamOk(param)
    ensures Holding(Behind(title, args, exts, param), title, args + [EntryOf(param)], exts)
  {
    var p := Behind(title, args, exts, param);
    ConsumeTwo(p, ';', ' ');
    ConsumeTwo(p, ',', ' ');
    assert [';', ' '] == "; " && [',', ' '] == ", ";
    hide FromEntries;
  }

  lemma NameRead(title: string, args: seq<(string, Value)>, exts: seq<Extension>, name: string)
    requires IsToken(name)
    ensures ConsumeAll(Ready(title, args, exts), name + "=") == Ok(Parser("", title, name, false, false, args, exts))
  {
    var p := Ready(title, args, exts);
    ConsumeToken(p, name);
    assert "" + name == name;
    ConsumeConcat(p, name, "=");
    ConsumeOne(p.(word := name), '=');
  }

  lemma QuotedRead(title: string, args: seq<(string, Value)>, exts: seq<Extension>, name: string, text: string)
    requires name != ""
    ensures ConsumeAll(Parser("", title, name, false, false, args, exts), "\"" + Escape(text) + "\"")
         == Ok(Ready(title, args + [EntryOf(Param(name, Quoted(text)))], exts))
  {
    var p := Parser("", title, name, false, false, args, exts);
    var q := p.(quoted := true);
    ConsumeOne(p, '"');
    ConsumeEscaped(q, text);
    assert "" + text == text;
    ConsumeOne(q.(word := text), '"');
    ConsumeConcat(p, "\"", Escape(text));
    ConsumeConcat(p, "\"" + Escape(text), "\"");
  }

  lemma ParamRead(title: string, args: seq<(string, Value)>, exts: seq<Extension>, param: Param)
    requires ParamOk(param)
    ensures ConsumeAll(Ready(title, args, exts), PrintParam(param)) == Ok(Behind(title, args, exts, param))
  {
    var p := Ready(title, args, exts);
    match param.value
    case Flag =>
      ConsumeToken(p, param.name);
      assert "" + param.name == param.name;
    case Token(token) =>
      NameRead(title, args, exts, param.name);
      ConsumeConcat(p, param.name + "=", token);
      ConsumeToken(Parser("", title, param.name, false, false, args, exts), token);
      assert "" + token == token;
    case Quoted(text) =>
      NameRead(title, args, exts, param.name);
      QuotedRead(title, args, exts, param.name, text);
      ConsumeConcat(p, param.name + "=", "\"" + Escape(text) + "\"");
      assert param.name + "=\"" + Escape(text) + "\"" == (param.name + "=") + ("\"" + Escape(text) + "\"");
  }

  lemma ParamStep(p: Parser, title: string, args: seq<(string, Value)>, exts: seq<Extension>, param: Param, later: string)
    requires title != "" && Holding(p, title, args, exts) && ParamOk(param)
    ensures ConsumeAll(p, "; " + PrintParam(param) + later) == ConsumeAll(Behind(title, args, exts, param), later)
  {
    ParamRead(title, args, exts, param);
    ConsumeConcat(p, "; ", PrintParam(param));
    ConsumeConcat(p, "; " + PrintParam(param), later);
    hide ConsumeAll;
    hide PrintParam;
    hide Behind;
  }

  lemma {:induction false} ParamsRead(p: Parser, title: string, args: seq<(string, Value)>, exts: seq<Extension>, params: seq<Param>)
    requires title != "" && Holding(p, title, args, exts) && forall i :: 0 <= i < |params| ==> ParamOk(params[i])
    ensures var r := ConsumeAll(p, PrintParams(params));
            r.Ok? && Holding(r.value, title, args + EntriesOf(params), exts)
    decreases |params|
  {
    hide ParamOk;
    hide EntryOf;
    hide PrintParam;
    hide Behind;
    hide Holding;
    if params == [] {
      assert args + EntriesOf(params) == args;
    } else {
      var first, rest := params[0], params[1..];
      ParamStep(p, title, args, exts, first, PrintParams(rest));
      ParamHolds(title, args, exts, first);
      ParamsRead(Behind(title, args, exts, first), title, args + [EntryOf(first)], exts, rest);
      assert (args + [EntryOf(first)]) + EntriesOf(rest) == args + EntriesOf(params);
      hide ConsumeAll;
    }
  }

  lemma OfferRead(o: Offer, exts: seq<Extension>)
    requires OfferOk(o)
    ensures var r := ConsumeAll(Fresh(exts), PrintOffer(o));
            r.Ok? && Holding(r.value, o.title, EntriesOf(o.params), exts)
  {
    var p := Fresh(exts);
    ConsumeToken(p, o.title);
    assert "" + o.title == o.title;
    ConsumeConcat(p, o.title, PrintParams(o.params));
    TitleHolds(o.title, exts);
    ParamsRead(p.(word := o.title), o.title, [], exts, o.params);
    assert [] + EntriesOf(o.params) == EntriesOf(o.params);
    hide Holding;
    hide PrintParams;
  }

  lemma {:induction false} OffersRead(offers: seq<Offer>, exts: seq<Extension>)
    requires offers != [] && forall i :: 0 <= i < |offers| ==> OfferOk(offers[i])
    ensures var r := ConsumeAll(Fresh(exts), Print(offers));
            r.Ok? && Finish(r.value) == exts + ExtensionsOf(offers)
    decreases |offers|
  {
    hide OfferOk;
    hide PrintOffer;
    hide FromEntries;
    var o := offers[0];
    OfferRead(o, exts);
    var q := ConsumeAll(Fresh(exts), PrintOffer(o)).value;
    if |offers| == 1 {
      assert PrintOffer(o) + "" == PrintOffer(o);
      assert ExtensionsOf(offers) == [ExtensionOf(o)];
    } else {
      var exts' := exts + [ExtensionOf(o)];
      OffersRead(offers[1..], exts');
      ConsumeConcat(Fresh(exts), PrintOffer(o), ", " + Print(offers[1..]));
      ConsumeConcat(q, ", ", Print(offers[1..]));
      assert exts' + ExtensionsOf(offers[1..]) == exts + ExtensionsOf(offers);
    }
  }

  /** Round trip: a printed list of extensions is read back, titles, parameters and unescaped values, in order. */
  lemma {:induction false} PrintParse(offers: seq<Offer>)
    requires forall i :: 0 <= i < |offers| ==> OfferOk(offers[i])
    ensures Parse(Print(offers)) == Ok(ExtensionsOf(offers))
  {
    if offers != [] {
      OffersRead(offers, []);
      assert [] + ExtensionsOf(offers) == ExtensionsOf(offers);
    } else {
      assert ExtensionsOf(offers) == [];
    }
  }

  function Names(args: seq<(string, Value)>): set<string> {
    set i | 0 <= i < |args| :: args[i].0
  }

  lemma {:induction false} EntriesKept(args: seq<(string, Value)>)
    requires forall i, j :: 0 <= i < j < |args| ==> args[i].0 != args[j].0
    ensures FromEntries(args).Keys == Names(args)
    ensures forall i :: 0 <= i < |args| ==> args[i].0 in FromEntries(args) && FromEntries(args)[args[i].0] == args[i].1
  {
    if args != [] {
      var before, last := args[..|args| - 1], args[|args| - 1];
      EntriesKept(before);
      assert Names(args) == Names(before) + {last.0} by {
        forall name | name in Names(before) + {last.0}
          ensures name in Names(args)
        {
          if name in Names(before) {
            var i :| 0 <= i < |before| && before[i].0 == name;
            assert args[i].0 == name;
          }
        }
      }
    }
  }

  /** Parameters with distinct names are all kept, each with its own value, and there are no others. */
  lemma ParametersKept(o: Offer)
    requires forall i, j :: 0 <= i < j < |o.params| ==> o.params[i].name != o.params[j].name
    ensures var params := ExtensionOf(o).params;
            && |params| == |o.params|
            && forall i :: 0 <= i < |o.params| ==> o.params[i].name in params && params[o.params[i].name] == EntryOf(o.params[i]).1
  {
    var entries := EntriesOf(o.params);
    assert forall i :: 0 <= i < |entries| ==> entries[i].0 == o.params[i].name && entries[i].1 == EntryOf(o.params[i]).1;
    EntriesKept(entries);
    EntriesCounted(entries);
  }

  lemma {:induction false} EntriesCounted(args: seq<(string, Value)>)
    requires forall i, j :: 0 <= i < j < |args| ==> args[i].0 != args[j].0
    ensures |FromEntries(args)| == |args|
  {
    if args != [] {
      var before, last := args[..|args| - 1], args[|args| - 1];
      EntriesCounted(before);
      EntriesKept(before);
      assert last.0 !in FromEntries(before);
    }
  }

  lemma StandardIsTokenChar(c: char)
    requires StandardChar(c)
    ensures TokenChar(c)
  {
  }

  lemma StandardIsToken(s: string)
    requires s != "" && forall i :: 0 <= i < |s| ==> StandardChar(s[i])
    ensures IsToken(s)
  {
    forall i | 0 <= i < |s|
      ensures TokenChar(s[i])
    {
      StandardIsTokenChar(s[i]);
    }
  }

  /** Every token of the standard is an extension by itself. */
  lemma TokenIsRead(s: string)
    requires s != "" && forall i :: 0 <= i < |s| ==> StandardChar(s[i])
    ensures Parse(s) == Ok([Extension(s, map[])])
  {
    StandardIsToken(s);
    var o := Offer(s, []);
    PrintParse([o]);
    assert Print([o]) == s + "" + "" && s + "" + "" == s;
    assert EntriesOf([]) == [] && ExtensionsOf([o]) == [Extension(s, map[])];
    hide Parse;
  }

  lemma JoinedRead(title: string, first: string, second: string)
    requires IsToken(title) && IsToken(first) && IsToken(second)
    ensures ConsumeAll(BEGIN, title + ";" + first + ";" + second) == Ok(Ready(title, [], []).(word := first + second))
  {
    var p, q := BEGIN.(word := title), Ready(title, [], []);
    ConsumeToken(BEGIN, title);
    assert "" + title == title && "" + first == first;
    ConsumeOne(p, ';');
    ConsumeToken(q, first);
    ConsumeOne(q.(word := first), ';');
    ConsumeToken(q.(word := first), second);
    ConsumeConcat(BEGIN, title, ";");
    ConsumeConcat(BEGIN, title + ";", first);
    ConsumeConcat(BEGIN, title + ";" + first, ";");
    ConsumeConcat(BEGIN, title + ";" + first + ";", second);
    hide ConsumeAll;
  }

  /** Without a space behind it, a semicolon separates nothing: the names run together. */
  lemma SemicolonsJoin(title: string, first: string, second: string)
    requires IsToken(title) && IsToken(first) && IsToken(second)
    ensures Parse(title + ";" + first + ";" + second) == Ok([Extension(title, map[first + second := True])])
  {
    var name := first + second;
    JoinedRead(title, first, second);
    ParamHolds(title, [], [], Param(name, Flag));
    LastCounts([(name, True)], 0);
    hide ConsumeAll;
    hide Finish;
    assert [] + [(name, True)] == [(name, True)];
    assert FromEntries([(name, True)]) == map[name := True];
    assert [] + [Extension(title, map[name := True])] == [Extension(title, map[name := True])];
  }

  /** A blank before the semicolon makes the title a parameter, and the parameter the title. */
  lemma BlankBeforeSemicolon(first: string, second: string)
    requires IsToken(first) && IsToken(second)
    ensures Parse(first + " ; " + second) == Ok([Extension(second, map[first := True])])
  {
    var args := [(first, True)];
    var p, q := BEGIN.(word := first), BEGIN.(args := args);
    ConsumeToken(BEGIN, first);
    assert "" + first == first && "" + second == second && [] + [(first, True)] == args;
    ConsumeOne(p, ' ');
    ConsumeTwo(q, ';', ' ');
    assert [';', ' '] == "; " && " " + "; " == " ; ";
    ConsumeToken(q, second);
    ConsumeConcat(p, " ", "; ");
    ConsumeConcat(BEGIN, first, " ; ");
    ConsumeConcat(BEGIN, first + " ; ", second);
    BlankFinish(first, second);
    hide ConsumeAll;
    hide Finish;
  }

  lemma BlankFinish(first: string, second: string)
    requires first != "" && second != ""
    ensures Finish(BEGIN.(args := [(first, True)], word := second)) == [Extension(second, map[first := True])]
  {
    LastCounts([(first, True)], 0);
    assert FromEntries([(first, True)]) == map[first := True];
    assert [] + [Extension(second, map[first := True])] == [Extension(second, map[first := True])];
    hide FromEntries;
  }

  /** Of several names before a value the last counts. */
  lemma LastNameCounts(title: string, first: string, second: string, value: string)
    requires IsToken(title) && IsToken(first) && IsToken(second) && IsToken(value)
    ensures ConsumeAll(Ready(title, [], []), first + "=" + second + "=" + value)
         == Ok(Behind(title, [], [], Param(second, Token(value))))
  {
    var p := Ready(title, [], []);
    NameRead(title, [], [], first);
    var q := Parser("", title, first, false, false, [], []);
    ConsumeToken(q, second);
    assert "" + second == second && "" + value == value;
    ConsumeOne(q.(word := second), '=');
    var r := Parser("", title, second, false, false, [], []);
    ConsumeToken(r, value);
    ConsumeConcat(p, first + "=", second);
    ConsumeConcat(p, first + "=" + second, "=");
    ConsumeConcat(p, first + "=" + second + "=", value);
    hide ConsumeAll;
  }

  /** A name left without its value before a comma takes the first word of the next extension's parameters. */
  lemma DanglingName(first: string, name: string, second: string, value: string)
    requires IsToken(first) && IsToken(name) && IsToken(second) && IsToken(value)
    ensures ConsumeAll(Ready(first, [], []), name + "=" + ", " + second + "; " + value)
         == Ok(Behind(second, [], [Extension(first, map[])], Param(name, Token(value))))
  {
    var p := Ready(first, [], []);
    var exts := [Extension(first, map[])];
    NameRead(first, [], [], name);
    var q := Parser("", first, name, false, false, [], []);
    assert [] + [Extension(first, FromEntries([]))] == exts;
    ConsumeTwo(q, ',', ' ');
    var r := Parser("", "", name, false, false, [], exts);
    ConsumeToken(r, second);
    assert "" + second == second && "" + value == value;
    ConsumeTwo(r.(word := second), ';', ' ');
    assert [',', ' '] == ", " && [';', ' '] == "; ";
    ConsumeToken(Parser("", second, name, false, false, [], exts), value);
    ConsumeConcat(p, name + "=", ", ");
    ConsumeConcat(p, name + "=" + ", ", second);
    ConsumeConcat(p, name + "=" + ", " + second, "; ");
    ConsumeConcat(p, name + "=" + ", " + second + "; ", value);
    hide ConsumeAll;
  }

  /** A quotation that is no value is part of a name. */
  lemma QuotedNameJoins(title: string, text: string, more: string)
    requires IsToken(title) && IsToken(more)
    ensures ConsumeAll(Ready(title, [], []), "\"" + Escape(text) + "\"" + more) == Ok(Ready(title, [], []).(word := text + more))
  {
    var p := Ready(title, [], []);
    var q := p.(quoted := true);
    ConsumeOne(p, '"');
    ConsumeEscaped(q, text);
    assert "" + text == text;
    ConsumeOne(q.(word := text), '"');
    ConsumeToken(p.(word := text), more);
    ConsumeConcat(p, "\"", Escape(text));
    ConsumeConcat(p, "\"" + Escape(text), "\"");
    ConsumeConcat(p, "\"" + Escape(text) + "\"", more);
    hide ConsumeAll;
  }

  function EscapeEach(s: string): string {
    if s == "" then "" else ['\\', s[0]] + EscapeEach(s[1..])
  }

  lemma AnyEscaped(p: Parser, c: char)
    requires p.quoted && !p.escaped
    ensures ConsumeAll(p, ['\\', c]) == Ok(p.(word := p.word + [c]))
  {
    var q := p.(escaped := true);
    assert ConsumeAll(q, [c]) == Consume(q, c) by { ConsumeOne(q, c); }
    assert ['\\', c][1..] == [c];
  }

  /** Any character may be escaped in a quotation, not only those that must be. */
  lemma {:induction false} EachEscapedRead(p: Parser, s: string)
    requires p.quoted && !p.escaped
    ensures ConsumeAll(p, EscapeEach(s)) == Ok(p.(word := p.word + s))
    decreases |s|
  {
    if s == "" {
      assert p.word + s == p.word;
    } else {
      var q := p.(word := p.word + [s[0]]);
      AnyEscaped(p, s[0]);
      ConsumeConcat(p, ['\\', s[0]], EscapeEach(s[1..]));
      EachEscapedRead(q, s[1..]);
      assert q.word + s[1..] == p.word + s;
    }
  }

  // ---- the value that is lost

  /** What a parameter is meant to say. */
  function MeaningOf(p: Param): (string, Value) {
    (p.name, match p.value
             case Flag => True
             case Token(token) => Text(token)
             case Quoted(text) => Text(text))
  }

  function Meant(o: Offer): Extension {
    Extension(o.title, FromEntries(seq(|o.params|, i requires 0 <= i < |o.params| => MeaningOf(o.params[i]))))
  }

  function AllMeant(offers: seq<Offer>): (es: seq<Extension>)
    ensures |es| == |offers|
  {
    seq(|offers|, i requires 0 <= i < |offers| => Meant(offers[i]))
  }

  /** The `k`-th entry is the last of its name. */
  ghost predicate IsLast(args: seq<(string, Value)>, k: nat)
    requires k < |args|
  {
    forall j :: k < j < |args| ==> args[j].0 != args[k].0
  }

  lemma {:induction false} LastCounts(args: seq<(string, Value)>, k: nat)
    requires k < |args| && IsLast(args, k)
    ensures args[k].0 in FromEntries(args) && FromEntries(args)[args[k].0] == args[k].1
  {
    if k < |args| - 1 {
      var before := args[..|args| - 1];
      assert forall j :: k < j < |before| ==> before[j] == args[j];
      LastCounts(before, k);
      assert args[|args| - 1].0 != args[k].0;
    }
  }

  lemma {:induction false} HasLast(args: seq<(string, Value)>, name: string) returns (k: nat)
    requires name in FromEntries(args)
    ensures k < |args| && args[k].0 == name && IsLast(args, k)
  {
    k := |args| - 1;
    if args[k].0 != name {
      k := HasLast(args[..|args| - 1], name);
    }
  }

  /** Entries with the same names make the same map exactly when the last ones of each name agree. */
  lemma SameEntries(a: seq<(string, Value)>, b: seq<(string, Value)>)
    requires |a| == |b| && forall i :: 0 <= i < |a| ==> a[i].0 == b[i].0
    ensures FromEntries(a) == FromEntries(b) <==> forall k :: 0 <= k < |a| && IsLast(a, k) ==> a[k].1 == b[k].1
  {
    if FromEntries(a) == FromEntries(b) {
      forall k | 0 <= k < |a| && IsLast(a, k)
        ensures a[k].1 == b[k].1
      {
        LastCounts(a, k);
        LastCounts(b, k);
      }
    }
    if forall k :: 0 <= k < |a| && IsLast(a, k) ==> a[k].1 == b[k].1 {
      EntryAgrees(a, b);
      EntryAgrees(b, a);
      assert FromEntries(a) == FromEntries(b);
    }
  }

  lemma EntryAgrees(a: seq<(string, Value)>, b: seq<(string, Value)>)
    requires |a| == |b| && forall i :: 0 <= i < |a| ==> a[i].0 == b[i].0
    requires forall k :: 0 <= k < |a| && IsLast(a, k) ==> a[k].1 == b[k].1
    ensures forall name :: name in FromEntries(a) ==> name in FromEntries(b) && FromEntries(a)[name] == FromEntries(b)[name]
  {
    forall name | name in FromEntries(a)
      ensures name in FromEntries(b) && FromEntries(a)[name] == FromEntries(b)[name]
    {
      var k := HasLast(a, name);
      LastCounts(a, k);
      LastCounts(b, k);
    }
  }

  /** An empty quoted value, not overridden by a later parameter of its name. */
  ghost predicate Lost(o: Offer, k: nat)
    requires k < |o.params|
  {
    o.params[k].value == Quoted("") && forall j :: k < j < |o.params| ==> o.params[j].name != o.params[k].name
  }

  lemma MeantExactly(o: Offer)
    ensures ExtensionOf(o) == Meant(o) <==> NoneLost(o)
  {
    var entries := EntriesOf(o.params);
    var meant := seq(|o.params|, i requires 0 <= i < |o.params| => MeaningOf(o.params[i]));
    SameEntries(entries, meant);
    forall k | 0 <= k < |o.params|
      ensures Lost(o, k) <==> IsLast(entries, k) && entries[k].1 != meant[k].1
    {
      assert entries[k].1 != meant[k].1 <==> o.params[k].value == Quoted("");
      LastParam(o, k);
    }
  }

  lemma LastParam(o: Offer, k: nat)
    requires k < |o.params|
    ensures IsLast(EntriesOf(o.params), k) <==> forall j :: k < j < |o.params| ==> o.params[j].name != o.params[k].name
  {
    var entries := EntriesOf(o.params);
    assert forall j :: 0 <= j < |entries| ==> entries[j].0 == o.params[j].name;
    if IsLast(entries, k) {
      forall j | k < j < |o.params|
        ensures o.params[j].name != o.params[k].name
      {
        assert entries[j].0 != entries[k].0;
      }
    }
  }

  ghost predicate NoneLost(o: Offer) {
    forall k :: 0 <= k < |o.params| ==> !Lost(o, k)
  }


  /** Printed extensions are read back as what they mean if and only if no parameter counts whose value is an empty quotation:
      that one is taken for no value. */
  lemma ValuesKept(offers: seq<Offer>)
    requires forall i :: 0 <= i < |offers| ==> OfferOk(offers[i])
    ensures Parse(Print(offers)) == Ok(AllMeant(offers)) <==> forall i :: 0 <= i < |offers| ==> NoneLost(offers[i])
  {
    PrintParse(offers);
    AllMeantExactly(offers);
    hide Parse;
    hide Print;
  }

  lemma AllMeantExactly(offers: seq<Offer>)
    ensures ExtensionsOf(offers) == AllMeant(offers) <==> forall i :: 0 <= i < |offers| ==> NoneLost(offers[i])
  {
    hide NoneLost;
    hide ExtensionOf;
    hide Meant;
    var read, meant := ExtensionsOf(offers), AllMeant(offers);
    forall i | 0 <= i < |offers|
      ensures read[i] == meant[i] <==> NoneLost(offers[i])
    {
      MeantExactly(offers[i]);
    }
    assert read == meant <==> forall i :: 0 <= i < |offers| ==> read[i] == meant[i];
  }

  /** For one parameter: a quoted value is returned as it was if and only if it is not empty. */
  lemma QuotedValueKept(title: string, name: string, text: string)
    requires IsToken(title) && IsToken(name)
    ensures Parse(Print([Offer(title, [Param(name, Quoted(text))])])) == Ok([Extension(title, map[name := Text(text)])])
       <==> text != ""
  {
    var param := Param(name, Quoted(text));
    var o := Offer(title, [param]);
    PrintParse([o]);
    assert EntriesOf(o.params) == [EntryOf(param)];
    LastCounts([EntryOf(param)], 0);
    assert FromEntries([EntryOf(param)]) == map[name := EntryOf(param).1];
    hide Parse;
    hide Print;
    assert ExtensionsOf([o]) == [ExtensionOf(o)];
    assert map[name := Text(text)][name] == Text(text);
    assert map[name := True][name] == True;
  }

  // ---- errors

  /** Whether the characters of `line` before `i` leave a quotation open, and whether the last of them escapes. */
  function QuotingAt(line: string, i: nat): (bool, bool)
    requires i <= |line|
  {
    if i == 0 then (false, false)
    else
      var (quoted, escaped) := QuotingAt(line, i - 1);
      var c := line[i - 1];
      if c == '"' && !escaped then (!quoted, false)
      else if quoted then (true, c == '\\' && !escaped)
      else (false, false)
  }

  /** A character the parser rejects: one of fourteen, outside quotations. */
  ghost predicate Rejected(line: string, i: nat)
    requires i < |line|
  {
    !QuotingAt(line, i).0 && line[i] in "()<>@:\\/[]?{}\t"
  }

  lemma ReservedAre(c: char)
    ensures Reserved(c) <==> c in "()<>@:\\/[]?{}\t"
  {
    var all := "()<>@:\\/[]?{}\t";
    assert all[0] == '(' && all[1] == ')' && all[2] == '<' && all[3] == '>' && all[4] == '@' && all[5] == ':';
    assert all[6] == '\\' && all[7] == '/' && all[8] == '[' && all[9] == ']' && all[10] == '?' && all[11] == '{';
    assert all[12] == '}' && all[13] == '\t' && |all| == 14;
  }

  lemma ConsumeQuoting(p: Parser, line: string, i: nat)
    requires i < |line| && (p.quoted, p.escaped) == QuotingAt(line, i) && (p.escaped ==> p.quoted)
    ensures Consume(p, line[i]).InvalidCharacter? <==> Rejected(line, i)
    ensures var r := Consume(p, line[i]);
            r.Ok? ==> (r.value.quoted, r.value.escaped) == QuotingAt(line, i + 1) && (r.value.escaped ==> r.value.quoted)
  {
    hide FromEntries;
    ReservedAre(line[i]);
    hide Reserved;
  }

  lemma {:induction false} RestRejected(p: Parser, line: string, i: nat)
    requires i <= |line| && (p.quoted, p.escaped) == QuotingAt(line, i) && (p.escaped ==> p.quoted)
    ensures ConsumeAll(p, line[i..]).InvalidCharacter? <==> exists j :: i <= j < |line| && Rejected(line, j)
    decreases |line| - i
  {
    hide Consume;
    hide QuotingAt;
    hide Rejected;
    if i < |line| {
      ConsumeQuoting(p, line, i);
      assert line[i..][0] == line[i] && line[i..][1..] == line[i + 1..];
      if Consume(p, line[i]).Ok? {
        RestRejected(Consume(p, line[i]).value, line, i + 1);
      }
    }
  }

  /** A line is rejected exactly when it has one of the fourteen characters outside quotations. */
  lemma RejectedExactly(line: string)
    ensures Parse(line).InvalidCharacter? <==> exists j :: 0 <= j < |line| && Rejected(line, j)
  {
    RestRejected(BEGIN, line, 0);
    assert line[0..] == line;
  }
}
