/** Failure-carrying datatypes shared by every component. */
module Prelude {

  datatype Option<+T> = None | Some(value: T)

  datatype Result<+T, +E> = Ok(value: T) | Err(error: E)
}

/** Sealed references: AES-GCM as an ideal envelope that opens only under the data it was sealed with. */
module Sealing {
  import opened Prelude

  datatype Aad = Aad(installationId: string, bindingId: string, generation: nat)

  datatype Sealed<+T> = Sealed(secret: T, aad: Aad)

  function Open<T>(sealed: Sealed<T>, aad: Aad): Option<T> {
    if sealed.aad == aad then Some(sealed.secret) else None
  }
}

/** The part of JavaScript's string semantics the modelled code relies on. */
module JsText {

  /** WhiteSpace and LineTerminator, as `String.prototype.trim` removes them. */
  predicate IsSpace(c: char) {
    var n := c as int;
    || 9 <= n <= 13 || n == 32 || n == 160 || n == 0x1680 || 0x2000 <= n <= 0x200A
    || n == 0x2028 || n == 0x2029 || n == 0x202F || n == 0x205F || n == 0x3000 || n == 0xFEFF
  }

  function TrimStart(s: string): string {
    if s != [] && IsSpace(s[0]) then TrimStart(s[1..]) else s
  }

  function TrimEnd(s: string): string {
    if s != [] && IsSpace(s[|s| - 1]) then TrimEnd(s[..|s| - 1]) else s
  }

  function Trim(s: string): string {
    TrimEnd(TrimStart(s))
  }

  /** No space at either end. */
  predicate Trimmed(s: string) {
    s == [] || (!IsSpace(s[0]) && !IsSpace(s[|s| - 1]))
  }

  predicate Blank(s: string) {
    |Trim(s)| == 0
  }

  /** Nothing but spaces. */
  predicate Spaces(s: string) {
    forall c :: c in s ==> IsSpace(c)
  }

  lemma SpacesAreThese(c: char)
    ensures IsSpace(c)
       <==> c as int in {9, 10, 11, 12, 13, 32, 160, 5760, 8192, 8193, 8194, 8195, 8196, 8197, 8198, 8199, 8200, 8201,
                         8202,
                         8232, 8233, 8239, 8287, 12288, 65279}
  {
  }

  lemma {:induction false} TrimStartExactly(s: string) returns (before: string)
    ensures s == before + TrimStart(s) && Spaces(before)
    ensures TrimStart(s) == "" || !IsSpace(TrimStart(s)[0])
  {
    hide IsSpace;
    before := "";
    if s != "" && IsSpace(s[0]) {
      var rest := TrimStartExactly(s[1..]);
      before := [s[0]] + rest;
      assert s == [s[0]] + s[1..];
    }
  }

  lemma {:induction false} TrimEndExactly(s: string) returns (after: string)
    ensures s == TrimEnd(s) + after && Spaces(after)
    ensures TrimEnd(s) == "" || (!IsSpace(TrimEnd(s)[|TrimEnd(s)| - 1]) && TrimEnd(s)[0] == s[0])
  {
    hide IsSpace;
    after := "";
    if s != "" && IsSpace(s[|s| - 1]) {
      var rest := TrimEndExactly(s[..|s| - 1]);
      after := rest + [s[|s| - 1]];
      assert s == s[..|s| - 1] + [s[|s| - 1]];
    }
  }

  lemma {:induction false} TrimStartUnpads(before: string, s: string)
    requires Spaces(before) && (s == "" || !IsSpace(s[0]))
    ensures TrimStart(before + s) == s
  {
    hide IsSpace;
    if before == "" {
      assert before + s == s;
    } else {
      assert (before + s)[1..] == before[1..] + s;
      TrimStartUnpads(before[1..], s);
    }
  }

  lemma {:induction false} TrimEndUnpads(s: string, after: string)
    requires Spaces(after) && (s == "" || !IsSpace(s[|s| - 1]))
    ensures TrimEnd(s + after) == s
  {
    hide IsSpace;
    if after == "" {
      assert s + after == s;
    } else {
      var n := |after| - 1;
      assert (s + after)[..|s + after| - 1] == s + after[..n];
      TrimEndUnpads(s, after[..n]);
    }
  }

  /** Trimming leaves exactly what has no space at either end and only spaces around it. */
  lemma {:induction false} TrimExactly(s: string, t: string)
    ensures Trim(s) == t
       <==> Trimmed(t) && exists before, after :: Spaces(before) && Spaces(after) && s == before + t + after
  {
    hide IsSpace;
    var start := TrimStartExactly(s);
    var end := TrimEndExactly(TrimStart(s));
    assert s == start + Trim(s) + end;
    if exists before, after :: Spaces(before) && Spaces(after) && s == before + t + after && Trimmed(t) {
      var before, after :| Spaces(before) && Spaces(after) && s == before + t + after && Trimmed(t);
      Unpadded(before, t, after);
    }
  }

  lemma {:induction false} Unpadded(before: string, t: string, after: string)
    requires Spaces(before) && Spaces(after) && Trimmed(t)
    ensures Trim(before + t + after) == t
  {
    hide IsSpace;
    if t == "" {
      assert before + t + after == (before + after) + "";
      TrimStartUnpads(before + after, "");
    } else {
      assert before + t + after == before + (t + after);
      TrimStartUnpads(before, t + after);
      TrimEndUnpads(t, after);
    }
  }

  /** Comparison of strings character by character. */
  predicate TextLess(a: string, b: string) {
    b != "" && (a == "" || a[0] < b[0] || (a[0] == b[0] && TextLess(a[1..], b[1..])))
  }

  lemma {:induction false} TextLessIsTotal(a: string, b: string)
    ensures TextLess(a, b) || TextLess(b, a) || a == b
    ensures !(TextLess(a, b) && TextLess(b, a))
    ensures a == b ==> !TextLess(a, b)
  {
    if a != "" && b != "" {
      TextLessIsTotal(a[1..], b[1..]);
      assert a == [a[0]] + a[1..] && b == [b[0]] + b[1..];
    }
  }

  /** Alike up to place `k`, where `b` goes on and `a` does not go on alike. */
  predicate DiffersAt(a: string, b: string, k: nat) {
    k <= |a| && k < |b| && (forall i :: 0 <= i < k ==> a[i] == b[i]) && (k < |a| ==> a[k] != b[k])
  }

  /** At the first place where they differ the smaller text has ended, or has the smaller character. */
  lemma {:induction false} TextLessExactly(a: string, b: string)
    ensures TextLess(a, b) <==> exists k: nat :: DiffersAt(a, b, k) && (k == |a| || a[k] < b[k])
  {
    if a == "" || b == "" || a[0] != b[0] {
      if TextLess(a, b) {
        assert DiffersAt(a, b, 0);
      }
      if k: nat :| DiffersAt(a, b, k) && (k == |a| || a[k] < b[k]) {
        assert k == 0;
      }
    } else {
      TextLessExactly(a[1..], b[1..]);
      if TextLess(a, b) {
        var k: nat :| DiffersAt(a[1..], b[1..], k) && (k == |a[1..]| || a[1..][k] < b[1..][k]);
        DiffersLater(a, b, k + 1);
      }
      if k: nat :| DiffersAt(a, b, k) && (k == |a| || a[k] < b[k]) {
        DiffersLater(a, b, k);
      }
    }
  }

  lemma DiffersLater(a: string, b: string, k: nat)
    requires a != "" && b != "" && a[0] == b[0] && 0 < k <= |a|
    ensures DiffersAt(a, b, k) <==> DiffersAt(a[1..], b[1..], k - 1)
  {
    if DiffersAt(a[1..], b[1..], k - 1) {
      forall i | 0 <= i < k ensures a[i] == b[i] {
        assert i > 0 ==> a[1..][i - 1] == b[1..][i - 1];
      }
    }
  }

  lemma {:induction false} TextLessIsTransitive(a: string, b: string, c: string)
    requires TextLess(a, b) && TextLess(b, c)
    ensures TextLess(a, c)
  {
    if a != "" && a[0] == b[0] == c[0] {
      TextLessIsTransitive(a[1..], b[1..], c[1..]);
    }
  }
}

/** The names every plain JavaScript object answers to without having them as its own. */
module JsObject {

  const INHERITED := {
    "constructor", "toString", "valueOf", "hasOwnProperty", "isPrototypeOf", "propertyIsEnumerable", "toLocaleString",
    "__proto__", "__defineGetter__", "__defineSetter__", "__lookupGetter__", "__lookupSetter__"}
}
