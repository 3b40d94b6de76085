/** The few java.lang.String operations the modelled code relies on, written out over
    `seq<char>`: prefix and suffix tests, substring search, literal replacement,
    joining, `split` on a one-character separator, ASCII lower-casing, `trim`-blankness
    and `Integer.parseInt`. */
module JavaStrings {
  import opened Wrappers

  const INT_MIN: int := -0x8000_0000
  const INT_MAX: int := 0x7FFF_FFFF

  /** The narrowing `(int)` cast of a 64-bit value, and the result of 32-bit arithmetic:
      the value modulo 2^32, read as a two's complement number. */
  function IntCast(x: int): (r: int)
    ensures INT_MIN <= r <= INT_MAX
    ensures (x - r) % 0x1_0000_0000 == 0
    ensures INT_MIN <= x <= INT_MAX ==> r == x
  {
    var m := x % 0x1_0000_0000;
    if m > INT_MAX then m - 0x1_0000_0000 else m
  }

  predicate StartsWith(s: string, prefix: string)
  {
    |prefix| <= |s| && s[..|prefix|] == prefix
  }

  predicate EndsWith(s: string, suffix: string)
  {
    |suffix| <= |s| && s[|s| - |suffix|..] == suffix
  }

  /** `s.contains(sub)`. */
  predicate Contains(s: string, sub: string)
    decreases |s|
  {
    StartsWith(s, sub) || (|s| > 0 && Contains(s[1..], sub))
  }

  lemma {:induction false} ContainsAt(s: string, sub: string, i: nat)
    requires i + |sub| <= |s| && s[i..i + |sub|] == sub
    ensures Contains(s, sub)
    decreases i
  {
    if i > 0 {
      assert s[1..][i - 1..i - 1 + |sub|] == sub;
      ContainsAt(s[1..], sub, i - 1);
    }
  }

  lemma {:induction false} ContainsWitness(s: string, sub: string) returns (i: nat)
    requires Contains(s, sub)
    ensures i + |sub| <= |s| && s[i..i + |sub|] == sub
    decreases |s|
  {
    if StartsWith(s, sub) {
      i := 0;
    } else {
      var k := ContainsWitness(s[1..], sub);
      i := k + 1;
      assert s[i..i + |sub|] == s[1..][k..k + |sub|];
    }
  }

  /** `s.replace(target, replacement)`: every occurrence, left to right, not overlapping. */
  function ReplaceAll(s: string, target: string, replacement: string): (r: string)
    requires |target| > 0
    decreases |s|
  {
    if |s| < |target| then s
    else if StartsWith(s, target) then replacement + ReplaceAll(s[|target|..], target, replacement)
    else [s[0]] + ReplaceAll(s[1..], target, replacement)
  }

  /** A string in which the target does not occur is left as it is. */
  lemma {:induction false} ReplaceAllAbsent(s: string, target: string, replacement: string)
    requires |target| > 0 && !Contains(s, target)
    ensures ReplaceAll(s, target, replacement) == s
    decreases |s|
  {
    if |s| >= |target| {
      ReplaceAllAbsent(s[1..], target, replacement);
      assert [s[0]] + s[1..] == s;
    }
  }

  /** A string containing the target has the replacement in it after replacing. */
  lemma {:induction false} ReplaceAllIntroduces(s: string, target: string, replacement: string)
    requires |target| > 0 && Contains(s, target)
    ensures Contains(ReplaceAll(s, target, replacement), replacement)
    decreases |s|
  {
    var r := ReplaceAll(s, target, replacement);
    if |s| < |target| {
      var i := ContainsWitness(s, target);
    } else if StartsWith(s, target) {
      assert r[..|replacement|] == replacement;
    } else {
      ReplaceAllIntroduces(s[1..], target, replacement);
      assert r[1..] == ReplaceAll(s[1..], target, replacement);
    }
  }

  /** When the target and the replacement start with the same character, which does not
      occur in a prefix, replacing does not change whether the string starts with that
      prefix: every replacement starts where the original had that character. */
  lemma {:induction false} ReplaceAllKeepsPrefix(s: string, target: string, replacement: string, prefix: string)
    requires |target| > 0 && |replacement| > 0 && target[0] == replacement[0] && target[0] !in prefix
    ensures StartsWith(ReplaceAll(s, target, replacement), prefix) <==> StartsWith(s, prefix)
    decreases |s|
  {
    var r := ReplaceAll(s, target, replacement);
    if |s| < |target| {
    } else if StartsWith(s, target) {
      assert s[0] == target[0] && r[0] == target[0];
      if |prefix| > 0 {
        assert prefix[0] != target[0];
      }
    } else if |prefix| > 0 {
      assert prefix[0] != target[0] by { assert prefix[0] in prefix; }
      assert target[0] !in prefix[1..] by {
        forall c | c in prefix[1..] ensures c != target[0] { assert c in prefix; }
      }
      ReplaceAllKeepsPrefix(s[1..], target, replacement, prefix[1..]);
      var t := ReplaceAll(s[1..], target, replacement);
      assert r == [s[0]] + t;
      if StartsWith(s, prefix) {
        assert s[1..][..|prefix| - 1] == prefix[1..];
        assert r[..|prefix|] == [s[0]] + t[..|prefix| - 1];
        assert prefix == [prefix[0]] + prefix[1..];
      }
      if StartsWith(r, prefix) {
        assert t[..|prefix| - 1] == r[1..][..|prefix| - 1];
        assert s[..|prefix|] == [s[0]] + s[1..][..|prefix| - 1];
        assert prefix == [prefix[0]] + prefix[1..];
      }
    }
  }

  /** `s.indexOf(c)`: the first position of the character, -1 when it does not occur. */
  function IndexOf(s: string, c: char): (r: int)
    ensures -1 <= r < |s|
    ensures r == -1 <==> c !in s
    ensures r >= 0 ==> s[r] == c && c !in s[..r]
    decreases |s|
  {
    if |s| == 0 then -1
    else if s[0] == c then 0
    else
      var k := IndexOf(s[1..], c);
      if k == -1 then (assert forall x :: x in s ==> x == s[0] || x in s[1..]; -1)
      else (assert s[..k + 1] == [s[0]] + s[1..][..k]; k + 1)
  }

  /** `String.join` of the parts with a one-character separator. */
  function Join(parts: seq<string>, sep: char): (r: string)
    decreases |parts|
  {
    if |parts| == 0 then ""
    else if |parts| == 1 then parts[0]
    else parts[0] + [sep] + Join(parts[1..], sep)
  }

  /** Appending one more part appends the separator and that part. */
  lemma {:induction false} JoinSnoc(parts: seq<string>, x: string, sep: char)
    ensures Join(parts + [x], sep) == if |parts| == 0 then x else Join(parts, sep) + [sep] + x
    decreases |parts|
  {
    if |parts| > 1 {
      assert (parts + [x])[1..] == parts[1..] + [x];
      JoinSnoc(parts[1..], x, sep);
    } else if |parts| == 1 {
      assert (parts + [x])[1..] == [x];
    }
  }

  /** The fields between separators, empty fields kept: always at least one field. */
  function Fields(s: string, sep: char): (r: seq<string>)
    ensures |r| >= 1
    decreases |s|
  {
    if |s| == 0 then [""]
    else if s[0] == sep then [""] + Fields(s[1..], sep)
    else var t := Fields(s[1..], sep); [[s[0]] + t[0]] + t[1..]
  }

  /** No field contains the separator. */
  lemma {:induction false} FieldsHaveNoSeparator(s: string, sep: char)
    ensures forall k :: 0 <= k < |Fields(s, sep)| ==> sep !in Fields(s, sep)[k]
    decreases |s|
  {
    if |s| > 0 {
      FieldsHaveNoSeparator(s[1..], sep);
    }
  }

  /** Joining the fields gives the string back. */
  lemma {:induction false} JoinFields(s: string, sep: char)
    ensures Join(Fields(s, sep), sep) == s
    decreases |s|
  {
    if |s| > 0 {
      var t := Fields(s[1..], sep);
      JoinFields(s[1..], sep);
      if s[0] == sep {
        assert Fields(s, sep) == [""] + t;
        assert [""] + t == [""] + t[..1] + t[1..];
        assert Join([""] + t, sep) == "" + [sep] + Join(t, sep);
        assert [sep] + s[1..] == s;
      } else {
        var h := [s[0]] + t[0];
        assert Fields(s, sep) == [h] + t[1..];
        if |t| == 1 {
          assert Join(t, sep) == t[0];
        } else {
          assert Join(t, sep) == t[0] + [sep] + Join(t[1..], sep);
          assert ([h] + t[1..])[1..] == t[1..];
        }
        assert [s[0]] + s[1..] == s;
      }
    }
  }

  /** Splitting a join gives the parts back when no part contains the separator. */
  lemma {:induction false} FieldsOfJoin(parts: seq<string>, sep: char)
    requires |parts| >= 1
    requires forall k :: 0 <= k < |parts| ==> sep !in parts[k]
    ensures Fields(Join(parts, sep), sep) == parts
    decreases |parts|, |parts[0]|
  {
    if |parts[0]| > 0 {
      var p0 := parts[0];
      var rest := [p0[1..]] + parts[1..];
      assert rest[0] == p0[1..];
      assert forall k :: 0 <= k < |rest| ==> sep !in rest[k];
      FieldsOfJoin(rest, sep);
      assert Join(parts, sep) == [p0[0]] + Join(rest, sep) by {
        if |parts| == 1 {
        } else {
          assert rest[1..] == parts[1..];
          assert p0 == [p0[0]] + p0[1..];
        }
      }
      assert Join(parts, sep)[1..] == Join(rest, sep);
      assert p0[0] != sep by { assert p0[0] in p0; }
      assert [p0[0]] + p0[1..] == p0;
      assert parts == [p0] + parts[1..];
    } else if |parts| > 1 {
      FieldsOfJoin(parts[1..], sep);
      assert Join(parts, sep) == [sep] + Join(parts[1..], sep);
      assert Join(parts, sep)[1..] == Join(parts[1..], sep);
      assert parts == [""] + parts[1..];
    }
  }

  /** Drops empty strings from the end, as `split` does. */
  function DropTrailingEmpty(parts: seq<string>): (r: seq<string>)
    ensures |r| <= |parts| && r == parts[..|r|]
    ensures |r| > 0 ==> r[|r| - 1] != ""
    ensures forall k :: |r| <= k < |parts| ==> parts[k] == ""
    decreases |parts|
  {
    if |parts| == 0 then []
    else if parts[|parts| - 1] == "" then DropTrailingEmpty(parts[..|parts| - 1])
    else parts
  }

  /** `s.split(sep)` for a one-character, non-special separator: the input itself when
      the separator does not occur, otherwise the fields with trailing empty ones removed. */
  function Split(s: string, sep: char): (r: seq<string>)
  {
    if sep !in s then [s] else DropTrailingEmpty(Fields(s, sep))
  }

  /** The pieces `split` returns are fields of the string, in order, none holding the separator. */
  lemma SplitIsFieldPrefix(s: string, sep: char)
    ensures Split(s, sep) == Fields(s, sep)[..|Split(s, sep)|]
    ensures forall k :: 0 <= k < |Split(s, sep)| ==> sep !in Split(s, sep)[k]
  {
    FieldsHaveNoSeparator(s, sep);
    if sep !in s {
      assert Fields(s, sep) == [s] by { FieldsWithoutSeparator(s, sep); }
    }
  }

  lemma {:induction false} FieldsWithoutSeparator(s: string, sep: char)
    requires sep !in s
    ensures Fields(s, sep) == [s]
    decreases |s|
  {
    if |s| > 0 {
      FieldsWithoutSeparator(s[1..], sep);
      assert [s[0]] + s[1..] == s;
    }
  }

  function LowerChar(c: char): char
  {
    if 'A' <= c <= 'Z' then (c as int + 32) as char else c
  }

  /** Lower-casing in the ASCII range, the effect of `toLowerCase` on the names used here. */
  function ToLower(s: string): (r: string)
    ensures |r| == |s|
    ensures forall k :: 0 <= k < |s| ==> r[k] == LowerChar(s[k])
  {
    seq(|s|, k requires 0 <= k < |s| => LowerChar(s[k]))
  }

  lemma ToLowerIdempotent(s: string)
    ensures ToLower(ToLower(s)) == ToLower(s)
  {
  }

  /** `s.trim().equals("")`: every character is at most a space. */
  predicate IsBlank(s: string)
  {
    forall k :: 0 <= k < |s| ==> s[k] <= ' '
  }

  predicate IsDigit(c: char)
  {
    '0' <= c <= '9'
  }

  function DigitsValue(s: string): (v: nat)
    requires forall k :: 0 <= k < |s| ==> IsDigit(s[k])
    decreases |s|
  {
    if |s| == 0 then 0
    else
      assert IsDigit(s[|s| - 1]);
      DigitsValue(s[..|s| - 1]) * 10 + (s[|s| - 1] as int - '0' as int)
  }

  /** `Integer.parseInt(s)`: an optional sign, at least one decimal digit, and a value
      inside the 32-bit range; anything else is a NumberFormatException (None). */
  function ParseInt(s: string): (r: Option<int>)
    ensures r.Some? ==> INT_MIN <= r.value <= INT_MAX
    ensures r.Some? ==> |s| > 0
  {
    if |s| == 0 then None
    else
      var neg := s[0] == '-';
      var digits := if s[0] == '-' || s[0] == '+' then s[1..] else s;
      if |digits| == 0 || !(forall k :: 0 <= k < |digits| ==> IsDigit(digits[k])) then None
      else
        var d: int := DigitsValue(digits);
        var v: int := if neg then 0 - d else d;
        if INT_MIN <= v <= INT_MAX then Some(v) else None
  }

  /** The decimal text of a natural number. */
  function NatToString(n: nat): (s: string)
    ensures |s| > 0 && forall k :: 0 <= k < |s| ==> IsDigit(s[k])
    decreases n
  {
    if n < 10 then [('0' as int + n) as char]
    else NatToString(n / 10) + [('0' as int + n % 10) as char]
  }

  lemma {:induction false} DigitsOfNatToString(n: nat)
    ensures DigitsValue(NatToString(n)) == n
    decreases n
  {
    if n >= 10 {
      var s := NatToString(n);
      assert s[..|s| - 1] == NatToString(n / 10);
      DigitsOfNatToString(n / 10);
    }
  }

  /** Parsing the decimal text of a number in the 32-bit range gives the number back. */
  lemma ParseNatToString(n: nat)
    requires n <= INT_MAX
    ensures ParseInt(NatToString(n)) == Some(n)
  {
    DigitsOfNatToString(n);
  }
}
