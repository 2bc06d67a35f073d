/**
 * The flag parser of `src/cli.ts`: positionals, values, repeated values and flags in any
 * interleaving, printed and parsed back.
 */
module Flags {
  import opened Prelude
  import JsObject

  datatype Kind = FlagKind | ValueKind

  datatype Spec = Spec(kind: Kind, repeatable: bool)

  datatype Parsed = Parsed(
    positionals: seq<string>, values: map<string, string>, repeated: map<string, seq<string>>, flags: set<string>,
    seen: set<string>)

  const EMPTY := Parsed([], map[], map[], {}, {})

  datatype FlagError =
    | UnexpectedSeparator | UnknownFlag(name: string) | DuplicateFlag(name: string) | TakesNoValue(name: string)
    | RequiresValue(name: string)

  /** What a plain object answers to an inherited name is truthy, no flag, and not repeatable. */
  function Lookup(specs: map<string, Spec>, name: string): Option<Spec> {
    if name in specs then Some(specs[name])
    else if name in JsObject.INHERITED then Some(Spec(ValueKind, false))
    else None
  }

  predicate Dashed(s: string) {
    |s| >= 2 && s[0] == '-' && s[1] == '-'
  }

  /** Position of the first equals sign, or the length. */
  function EqualsAt(s: string): (n: nat)
    ensures n <= |s|
  {
    if s == "" || s[0] == '=' then 0 else 1 + EqualsAt(s[1..])
  }

  function WithValue(p: Parsed, spec: Spec, name: string, value: string): Parsed {
    var p' := p.(seen := p.seen + {name});
    if spec.repeatable
    then p'.(repeated := p.repeated[name := (if name in p.repeated then p.repeated[name] else []) + [value]])
    else p'.(values := p.values[name := value])
  }

  function WithFlag(p: Parsed, name: string): Parsed {
    p.(seen := p.seen + {name}, flags := p.flags + {name})
  }

  /** The rest of the command line, with what has been parsed of it so far. */
  function Parse(argv: seq<string>, specs: map<string, Spec>, p: Parsed): Result<Parsed, FlagError>
    decreases |argv|
  {
    if argv == [] then Ok(p)
    else
      var token := argv[0];
      if token == "--" then Err(UnexpectedSeparator)
      else if !Dashed(token) then Parse(argv[1..], specs, p.(positionals := p.positionals + [token]))
      else
        var equals := EqualsAt(token);
        var name := if equals < 2 then "" else token[2..equals];
        var spec := Lookup(specs, name);
        if spec.None? then Err(UnknownFlag(name))
        else if !spec.value.repeatable && name in p.seen then Err(DuplicateFlag(name))
        else if spec.value.kind == FlagKind then
          if equals < |token| then Err(TakesNoValue(name)) else Parse(argv[1..], specs, WithFlag(p, name))
        else if equals < |token| then Parse(argv[1..], specs, WithValue(p, spec.value, name, token[equals + 1..]))
        else if |argv| < 2 || Dashed(argv[1]) then Err(RequiresValue(name))
        else Parse(argv[2..], specs, WithValue(p, spec.value, name, argv[1]))
  }

  /** `parseFlags` as its loop performs it. */
  method ParseFlags(argv: seq<string>, specs: map<string, Spec>) returns (result: Result<Parsed, FlagError>)
    ensures result == Parse(argv, specs, EMPTY)
  {
    var positionals: seq<string> := [];
    var values: map<string, string> := map[];
    var repeated: map<string, seq<string>> := map[];
    var flags: set<string> := {};
    var seen: set<string> := {};
    var index := 0;
    assert argv[0..] == argv;
    while index < |argv|
      invariant 0 <= index <= |argv|
      invariant Parse(argv, specs, EMPTY)
                == Parse(argv[index..], specs, Parsed(positionals, values, repeated, flags, seen))
    {
      hide Lookup, Dashed;
      var token := argv[index];
      assert argv[index..][1..] == argv[index + 1..];
      assert index + 1 < |argv| ==> argv[index..][2..] == argv[index + 2..] && argv[index..][1] == argv[index + 1];
      index := index + 1;
      if token == "--" {
        return Err(UnexpectedSeparator);
      }
      if !Dashed(token) {
        positionals := positionals + [token];
        continue;
      }
      var equals := EqualsAt(token);
      var name := if equals < 2 then "" else token[2..equals];
      var spec := Lookup(specs, name);
      if spec.None? {
        return Err(UnknownFlag(name));
      }
      if !spec.value.repeatable && name in seen {
        return Err(DuplicateFlag(name));
      }
      seen := seen + {name};
      if spec.value.kind == FlagKind {
        if equals < |token| {
          return Err(TakesNoValue(name));
        }
        flags := flags + {name};
        continue;
      }
      var value;
      if equals < |token| {
        value := token[equals + 1..];
      } else {
        if index == |argv| || Dashed(argv[index]) {
          return Err(RequiresValue(name));
        }
        value := argv[index];
        index := index + 1;
      }
      if spec.value.repeatable {
        var current := if name in repeated then repeated[name] else [];
        repeated := repeated[name := current + [value]];
      } else {
        values := values[name := value];
      }
    }
    return Ok(Parsed(positionals, values, repeated, flags, seen));
  }
}
