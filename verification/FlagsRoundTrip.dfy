/** Command lines printed item by item, and when the flag parser reads the items back. */
module FlagsRoundTrip {
  import opened Prelude
  import opened Flags
  import JsObject

  datatype Item =
    | Positional(text: string)
    | Flag(name: string)
    | Inline(name: string, value: string)
    | TwoToken(name: string, value: string)

  function PrintItem(i: Item): seq<string> {
    match i
    case Positional(text) => [text]
    case Flag(name) => ["--" + name]
    case Inline(name, value) => ["--" + name + "=" + value]
    case TwoToken(name, value) => ["--" + name, value]
  }

  function Print(items: seq<Item>): seq<string> {
    if items == [] then [] else PrintItem(items[0]) + Print(items[1..])
  }

  function Collected(items: seq<Item>, specs: map<string, Spec>, p: Parsed): Parsed {
    if items == [] then p else Collected(items[1..], specs, Collect(items[0], specs, p))
  }

  function Collect(i: Item, specs: map<string, Spec>, p: Parsed): Parsed {
    match i
    case Positional(text) => p.(positionals := p.positionals + [text])
    case Flag(name) => WithFlag(p, name)
    case _ => if Lookup(specs, i.name).Some? then WithValue(p, Lookup(specs, i.name).value, i.name, i.value) else p
  }

  predicate Named(i: Item) { !i.Positional? }

  /** The item uses a known name in the way the name is meant, and no name that is spent. */
  predicate Legal(i: Item, specs: map<string, Spec>, seen: set<string>) {
    if i.Positional? then !Dashed(i.text)
    else
      var spec := Lookup(specs, i.name);
      && '=' !in i.name && spec.Some?
      && (i.name == "" ==> i.Inline?)
      && (i.Flag? <==> spec.value.kind == FlagKind)
      && (i.name in seen ==> spec.value.repeatable)
  }

  predicate AllLegal(items: seq<Item>, specs: map<string, Spec>, seen: set<string>) {
    items == []
    || (Legal(items[0], specs, seen)
        && AllLegal(items[1..], specs, if Named(items[0]) then seen + {items[0].name} else seen))
  }

  /** The one form that cannot carry every value. */
  predicate Parseable(i: Item) {
    i.TwoToken? ==> !Dashed(i.value)
  }

  lemma {:induction false} EqualsOfConcatenation(a: string, b: string)
    requires '=' !in a
    ensures EqualsAt(a + b) == |a| + EqualsAt(b)
  {
    if a == "" {
      assert a + b == b;
    } else {
      assert (a + b)[1..] == a[1..] + b;
      EqualsOfConcatenation(a[1..], b);
    }
  }

  lemma BareToken(name: string)
    requires '=' !in name
    ensures var token := "--" + name;
            Dashed(token) && EqualsAt(token) == |token| && token[2..|token|] == name && (name != "" ==> token != "--")
  {
    EqualsOfConcatenation("--" + name, "");
    assert "--" + name + "" == "--" + name;
  }

  lemma InlineToken(name: string, value: string)
    requires '=' !in name
    ensures var token := "--" + name + "=" + value; var equals := 2 + |name|;
            Dashed(token) && token != "--" && EqualsAt(token) == equals < |token| && token[2..equals] == name
            && token[equals + 1..] == value
  {
    EqualsOfConcatenation("--" + name, "=" + value);
    assert "--" + name + ("=" + value) == "--" + name + "=" + value;
  }

  /** One legal item is read back as itself, or stops the parser exactly where its value looks like a flag. */
  lemma ItemParses(i: Item, rest: seq<string>, specs: map<string, Spec>, p: Parsed)
    requires Legal(i, specs, p.seen)
    ensures Parse(PrintItem(i) + rest, specs, p)
            == if Parseable(i) then Parse(rest, specs, Collect(i, specs, p)) else Err(RequiresValue(i.name))
  {
    hide Lookup, WithValue, WithFlag;
    var argv := PrintItem(i) + rest;
    match i
    case Positional(text) => assert argv[1..] == rest;
    case Flag(name) =>
      BareToken(name);
      assert argv[1..] == rest;
    case Inline(name, value) =>
      InlineToken(name, value);
      assert argv[1..] == rest;
    case TwoToken(name, value) =>
      BareToken(name);
      assert argv[0] == "--" + name && argv[1] == value && argv[2..] == rest;
  }

  lemma CollectSeen(i: Item, specs: map<string, Spec>, p: Parsed)
    requires Legal(i, specs, p.seen)
    ensures Collect(i, specs, p).seen == if Named(i) then p.seen + {i.name} else p.seen
  {
  }

  /** A legal command line is read back item by item, exactly when no two-token value looks like a flag. */
  lemma {:induction false} ItemsParse(items: seq<Item>, specs: map<string, Spec>, p: Parsed)
    requires AllLegal(items, specs, p.seen)
    ensures if forall i :: 0 <= i < |items| ==> Parseable(items[i])
            then Parse(Print(items), specs, p) == Ok(Collected(items, specs, p))
            else Parse(Print(items), specs, p).Err? && Parse(Print(items), specs, p).error.RequiresValue?
    decreases |items|
  {
    hide Legal, Parseable, Parse, Collect, PrintItem;
    if items == [] {
      assert Parse([], specs, p) == Ok(p) by { NothingToParse(specs, p); }
    } else {
      ItemParses(items[0], Print(items[1..]), specs, p);
      CollectSeen(items[0], specs, p);
      if Parseable(items[0]) {
        ItemsParse(items[1..], specs, Collect(items[0], specs, p));
        assert forall i :: 0 < i < |items| ==> items[i] == items[1..][i - 1];
      }
    }
  }

  lemma NothingToParse(specs: map<string, Spec>, p: Parsed)
    ensures Parse([], specs, p) == Ok(p)
  {
  }

  /** The round trip, from the beginning: any interleaving, with the exact condition on two-token values. */
  lemma FlagsRoundTrip(items: seq<Item>, specs: map<string, Spec>)
    requires AllLegal(items, specs, {})
    ensures Parse(Print(items), specs, EMPTY) == Ok(Collected(items, specs, EMPTY))
       <==> forall i :: 0 <= i < |items| ==> Parseable(items[i])
  {
    hide AllLegal, Parse, Collected;
    ItemsParse(items, specs, EMPTY);
  }

  // ----- what has been collected

  function Positionals(items: seq<Item>): seq<string> {
    if items == [] then [] else (if items[0].Positional? then [items[0].text] else []) + Positionals(items[1..])
  }

  /** The values given for a name, in order. */
  function ValuesFor(items: seq<Item>, name: string): seq<string> {
    if items == [] then []
    else (if (items[0].Inline? || items[0].TwoToken?) && items[0].name == name then [items[0].value] else [])
         + ValuesFor(items[1..], name)
  }

  predicate Mentions(items: seq<Item>, name: string) {
    exists i :: 0 <= i < |items| && Named(items[i]) && items[i].name == name
  }

  function Given(p: Parsed, name: string): seq<string> {
    if name in p.repeated then p.repeated[name] else if name in p.values then [p.values[name]] else []
  }

  /** Only names that were seen hold values, each in the table of its kind. */
  ghost predicate Consistent(p: Parsed, specs: map<string, Spec>) {
    && (forall n :: n in p.repeated ==> n in p.seen && Lookup(specs, n).Some? && Lookup(specs, n).value.repeatable)
    && (forall n :: n in p.values ==> n in p.seen && Lookup(specs, n).Some? && !Lookup(specs, n).value.repeatable)
    && p.flags <= p.seen
  }

  lemma CollectOne(i: Item, specs: map<string, Spec>, p: Parsed, name: string)
    requires Legal(i, specs, p.seen) && Consistent(p, specs)
    ensures var p' := Collect(i, specs, p);
            && Consistent(p', specs)
            && p'.positionals == p.positionals + Positionals([i])
            && Given(p', name) == Given(p, name) + ValuesFor([i], name)
            && (name in p'.flags <==> name in p.flags || i == Flag(name))
            && (name in p'.seen <==> name in p.seen || (Named(i) && i.name == name))
  {
    assert [i][1..] == [];
  }

  /** Positionals come out in order, each name with exactly its values in order, and the flags that were given. */
  lemma {:induction false} CollectedIsComplete(items: seq<Item>, specs: map<string, Spec>, p: Parsed, name: string)
    requires AllLegal(items, specs, p.seen) && Consistent(p, specs)
    ensures var p' := Collected(items, specs, p);
            && p'.positionals == p.positionals + Positionals(items)
            && Given(p', name) == Given(p, name) + ValuesFor(items, name)
            && (name in p'.flags <==> name in p.flags || Flag(name) in items)
            && (name in p'.seen <==> name in p.seen || Mentions(items, name))
    decreases |items|
  {
    hide Legal, Collect, Consistent, Given, Positionals, ValuesFor, Mentions;
    if items == [] {
      NothingCollected(name);
    } else {
      var p1 := Collect(items[0], specs, p);
      CollectOne(items[0], specs, p, name);
      CollectSeen(items[0], specs, p);
      CollectedIsComplete(items[1..], specs, p1, name);
      ItemsSplit(items, name);
    }
  }

  lemma NothingCollected(name: string)
    ensures Positionals([]) == [] && ValuesFor([], name) == [] && !Mentions([], name)
  {
  }

  lemma {:induction false} ItemsSplit(items: seq<Item>, name: string)
    requires items != []
    ensures Positionals(items) == Positionals([items[0]]) + Positionals(items[1..])
    ensures ValuesFor(items, name) == ValuesFor([items[0]], name) + ValuesFor(items[1..], name)
    ensures Mentions(items, name) <==> (Named(items[0]) && items[0].name == name) || Mentions(items[1..], name)
    ensures Flag(name) in items <==> items[0] == Flag(name) || Flag(name) in items[1..]
  {
    assert [items[0]][1..] == [];
    assert items == [items[0]] + items[1..];
    if Mentions(items, name) {
      var i :| 0 <= i < |items| && Named(items[i]) && items[i].name == name;
      assert i > 0 ==> items[1..][i - 1] == items[i];
    }
  }

  /** So what a whole legal command line parses to is what was written on it. */
  lemma ParsedIsWritten(items: seq<Item>, specs: map<string, Spec>, name: string)
    requires AllLegal(items, specs, {}) && forall i :: 0 <= i < |items| ==> Parseable(items[i])
    ensures Parse(Print(items), specs, EMPTY).Ok?
    ensures var p := Parse(Print(items), specs, EMPTY).value;
            && p.positionals == Positionals(items)
            && Given(p, name) == ValuesFor(items, name)
            && (name in p.flags <==> Flag(name) in items)
            && (name in p.seen <==> Mentions(items, name))
  {
    hide AllLegal, Parse, Collected, Parseable;
    FlagsRoundTrip(items, specs);
    CollectedIsComplete(items, specs, EMPTY, name);
  }

  // ----- undeclared names

  predicate NamesFlag(token: string) { Dashed(token) && token != "--" }

  /** The name a token gives, and the value after its equals sign, if it has one. */
  function NameOf(token: string): string
    requires NamesFlag(token)
  {
    if EqualsAt(token) < 2 then "" else token[2..EqualsAt(token)]
  }

  function InlineValue(token: string): Option<string> {
    if EqualsAt(token) < |token| then Some(token[EqualsAt(token) + 1..]) else None
  }

  /** The parser complains of an unknown name only where there is neither a declaration nor an inherited answer. */
  lemma {:induction false} UnknownHasNoSpec(argv: seq<string>, specs: map<string, Spec>, p: Parsed)
    ensures var result := Parse(argv, specs, p);
            result.Err? && result.error.UnknownFlag? ==> Lookup(specs, result.error.name).None?
    decreases |argv|
  {
    hide Lookup, WithValue, WithFlag;
    if argv != [] {
      var token := argv[0];
      if !Dashed(token) {
        UnknownHasNoSpec(argv[1..], specs, p.(positionals := p.positionals + [token]));
      } else {
        var equals := EqualsAt(token);
        var name := if equals < 2 then "" else token[2..equals];
        var spec := Lookup(specs, name);
        if spec.Some? {
          UnknownHasNoSpec(argv[1..], specs, WithFlag(p, name));
          UnknownHasNoSpec(argv[1..], specs,
                           WithValue(p, spec.value, name, token[if equals < |token| then equals + 1 else equals..]));
          if |argv| >= 2 {
            UnknownHasNoSpec(argv[2..], specs, WithValue(p, spec.value, name, argv[1]));
          }
        }
      }
    }
  }

  /**
   * What the parser makes of an inherited name: a flag with one value, inline or in the next token, that may be given
   * once.
   */
  function Inherited(token: string, rest: seq<string>, specs: map<string, Spec>, p: Parsed): Result<Parsed, FlagError>
    requires NamesFlag(token)
  {
    var name := NameOf(token);
    var value := InlineValue(token);
    if name in p.seen then Err(DuplicateFlag(name))
    else if value.Some? then Parse(rest, specs, Valued(p, name, value.value))
    else if rest == [] || Dashed(rest[0]) then Err(RequiresValue(name))
    else Parse(rest[1..], specs, Valued(p, name, rest[0]))
  }

  function Valued(p: Parsed, name: string, value: string): Parsed {
    p.(seen := p.seen + {name}, values := p.values[name := value])
  }

  /**
   * Wherever a token names something the command does not declare, it is refused as unknown exactly when no plain
   * object has the name; an inherited name is parsed as a value flag instead, whatever the command declares.
   */
  lemma {:induction false} UndeclaredNameIsRefused(token: string, rest: seq<string>, specs: map<string, Spec>,
                                                   p: Parsed)
    requires NamesFlag(token) && NameOf(token) !in specs
    ensures Parse([token] + rest, specs, p) == Err(UnknownFlag(NameOf(token))) <==> NameOf(token) !in JsObject.INHERITED
    ensures NameOf(token) in JsObject.INHERITED ==> Parse([token] + rest, specs, p) == Inherited(token, rest, specs, p)
  {
    var argv := [token] + rest;
    assert argv[1..] == rest;
    assert rest != [] ==> argv[1] == rest[0] && argv[2..] == rest[1..];
    UnknownHasNoSpec(argv, specs, p);
    hide EqualsAt, Dashed;
  }

  /** Both spellings of a name give it: alone with its value to follow, and with an equals sign. */
  lemma SpellingsOfName(name: string, value: string)
    requires '=' !in name
    ensures var token := "--" + name + "=" + value;
            NamesFlag(token) && NameOf(token) == name && InlineValue(token) == Some(value)
    ensures name != "" ==> var token := "--" + name;
                           NamesFlag(token) && NameOf(token) == name && InlineValue(token) == None
  {
    InlineToken(name, value);
    BareToken(name);
  }

  // ----- every token in every state

  function Spelled(name: string, value: Option<string>): string {
    "--" + name + if value.Some? then "=" + value.value else ""
  }

  /** A token is the separator, text that does not begin with two dashes, or a name with a value or without one. */
  lemma {:induction false} TokensAreSpelled(token: string) returns (name: string, value: Option<string>)
    ensures "--" <= token ==> token == Spelled(name, value) && '=' !in name
  {
    name, value := "", None;
    if "--" <= token {
      var tail := token[2..];
      assert token == "--" + tail;
      name, value := HalvesOf(tail);
    }
  }

  lemma HalvesOf(tail: string) returns (name: string, value: Option<string>)
    ensures "--" + tail == Spelled(name, value) && '=' !in name
  {
    EqualsIsFirst(tail);
    var equals := EqualsAt(tail);
    hide EqualsAt;
    name := tail[..equals];
    if equals < |tail| {
      value := Some(tail[equals + 1..]);
      assert tail == name + ("=" + value.value);
      assert "--" + name + ("=" + value.value) == "--" + (name + ("=" + value.value));
    } else {
      value := None;
      assert "--" + name + "" == "--" + tail;
    }
  }

  lemma {:induction false} EqualsIsFirst(s: string)
    ensures '=' !in s[..EqualsAt(s)] && (EqualsAt(s) < |s| ==> s[EqualsAt(s)] == '=')
  {
    if s != "" && s[0] != '=' {
      EqualsIsFirst(s[1..]);
      assert s[..EqualsAt(s)] == [s[0]] + s[1..][..EqualsAt(s[1..])];
    }
  }

  predicate IsFlag(specs: map<string, Spec>, name: string) {
    name in specs && specs[name].kind == FlagKind
  }

  predicate MayRepeat(specs: map<string, Spec>, name: string) {
    name in specs && specs[name].repeatable
  }

  /** The value is kept under its name, behind the earlier ones if the name may repeat. */
  function Keeping(p: Parsed, specs: map<string, Spec>, name: string, value: string): Parsed {
    if MayRepeat(specs, name)
    then var earlier := if name in p.repeated then p.repeated[name] else [];
         p.(seen := p.seen + {name}, repeated := p.repeated[name := earlier + [value]])
    else p.(seen := p.seen + {name}, values := p.values[name := value])
  }

  /** What a name leads to: refused for its cause, or kept, with what follows it where it takes a value from there. */
  function NameLeadsTo(name: string, value: Option<string>, rest: seq<string>, specs: map<string, Spec>, p: Parsed)
    : Result<Parsed, FlagError>
  {
    if name !in specs && name !in JsObject.INHERITED then Err(UnknownFlag(name))
    else if name in p.seen && !MayRepeat(specs, name) then Err(DuplicateFlag(name))
    else match value
      case Some(text) =>
        if IsFlag(specs, name) then Err(TakesNoValue(name)) else Parse(rest, specs, Keeping(p, specs, name, text))
      case None =>
        if IsFlag(specs, name) then Parse(rest, specs, p.(seen := p.seen + {name}, flags := p.flags + {name}))
        else if rest == [] || "--" <= rest[0] then Err(RequiresValue(name))
        else Parse(rest[1..], specs, Keeping(p, specs, name, rest[0]))
  }

  /** Every token, in every state of the parser, by what is written: a separator, a positional, or a name. */
  lemma {:induction false} TokenByCause(token: string, rest: seq<string>, specs: map<string, Spec>, p: Parsed)
    ensures token == "--" ==> Parse([token] + rest, specs, p) == Err(UnexpectedSeparator)
    ensures !("--" <= token) ==>
              Parse([token] + rest, specs, p) == Parse(rest, specs, p.(positionals := p.positionals + [token]))
    ensures forall name, value ::
              token == Spelled(name, value) && '=' !in name && token != "--" ==>
                Parse([token] + rest, specs, p) == NameLeadsTo(name, value, rest, specs, p)
  {
    var argv := [token] + rest;
    assert argv[1..] == rest && argv[0] == token;
    DashedExactly(token);
    forall name, value | token == Spelled(name, value) && '=' !in name && token != "--"
      ensures Parse(argv, specs, p) == NameLeadsTo(name, value, rest, specs, p)
    {
      NameByCause(name, value, rest, specs, p);
    }
  }

  lemma {:induction false} NameByCause(name: string, value: Option<string>, rest: seq<string>,
                                       specs: map<string, Spec>, p: Parsed)
    requires '=' !in name && Spelled(name, value) != "--"
    ensures Parse([Spelled(name, value)] + rest, specs, p) == NameLeadsTo(name, value, rest, specs, p)
  {
    var argv := [Spelled(name, value)] + rest;
    assert argv[1..] == rest;
    if rest != [] {
      assert argv[1] == rest[0] && argv[2..] == rest[1..];
      DashedExactly(rest[0]);
    }
    if value.Some? {
      InlineToken(name, value.value);
      assert argv[0] == "--" + name + "=" + value.value;
    } else {
      BareToken(name);
      assert argv[0] == "--" + name;
    }
    hide Dashed, EqualsAt;
  }

  lemma DashedExactly(s: string)
    ensures Dashed(s) <==> "--" <= s
  {
  }
}
