/** The Python string and list primitives the modelled code relies on: substring search,
    `split`/`join` on one character, `replace`, `strip`, decimal conversion with `str`,
    `zfill` and `int`, `list.index` and `os.path.join`. Strings are sequences of Unicode
    scalar values, as Python's `str` is for the inputs here. */
module Text {
  import opened Wrappers

  // ---------------------------------------------------------------------------
  // Substring search

  /** `sub` occurs in `s` starting at index `i`. */
  predicate OccursAt(s: string, sub: string, i: nat) {
    i + |sub| <= |s| && s[i..i + |sub|] == sub
  }

  /** Python's `s.find(sub) != -1` (and `sub in s`); the empty string occurs everywhere. */
  function Contains(s: string, sub: string): bool
    decreases |s|
  {
    if |sub| > |s| then false
    else if sub <= s then true
    else Contains(s[1..], sub)
  }

  /** The search agrees with the declarative reading "`sub` occurs at some index". */
  lemma {:induction false} ContainsIff(s: string, sub: string)
    ensures Contains(s, sub) <==> exists i: nat :: OccursAt(s, sub, i)
    decreases |s|
  {
    if |sub| > |s| {
      forall i: nat ensures !OccursAt(s, sub, i) {}
    } else if sub <= s {
      assert OccursAt(s, sub, 0);
    } else {
      ContainsIff(s[1..], sub);
      if Contains(s[1..], sub) {
        var i: nat :| OccursAt(s[1..], sub, i);
        forall k | 0 <= k < |sub| ensures s[i + 1 + k] == sub[k] {
          assert s[1..][i..i + |sub|][k] == sub[k];
        }
        assert s[i + 1..i + 1 + |sub|] == sub;
        assert OccursAt(s, sub, i + 1);
      } else {
        forall i: nat ensures !OccursAt(s, sub, i) {
          if i > 0 && OccursAt(s, sub, i) {
            assert s[1..][i - 1..i - 1 + |sub|] == s[i..i + |sub|];
            assert OccursAt(s[1..], sub, i - 1);
          }
        }
      }
    }
  }

  /** The index of the first `c` in `s`. */
  function FirstIndex(s: string, c: char): (i: nat)
    requires c in s
    ensures i < |s| && s[i] == c && c !in s[..i]
  {
    if s[0] == c then 0
    else
      var j := FirstIndex(s[1..], c);
      assert s[..j + 1] == [s[0]] + s[1..][..j];
      j + 1
  }

  // ---------------------------------------------------------------------------
  // split and join on one character

  /** Python's `s.split(c)` for a one-character separator: the maximal pieces between separators. */
  function Split(s: string, c: char): (parts: seq<string>)
    ensures |parts| >= 1
    ensures forall k :: 0 <= k < |parts| ==> c !in parts[k]
    decreases |s|
  {
    if c !in s then [s]
    else
      var i := FirstIndex(s, c);
      [s[..i]] + Split(s[i + 1..], c)
  }

  /** Python's `c.join(parts)`. */
  function Join(parts: seq<string>, c: char): string
  {
    if |parts| == 0 then ""
    else if |parts| == 1 then parts[0]
    else parts[0] + [c] + Join(parts[1..], c)
  }

  /** Splitting loses nothing: joining the pieces again gives back the string. */
  lemma {:induction false} JoinSplit(s: string, c: char)
    ensures Join(Split(s, c), c) == s
    decreases |s|
  {
    if c in s {
      var i := FirstIndex(s, c);
      var a, rest := s[..i], s[i + 1..];
      var parts := Split(rest, c);
      JoinSplit(rest, c);
      assert Split(s, c) == [a] + parts;
      JoinCons(a, parts, c);
      assert s == a + [c] + rest;
    }
  }

  lemma JoinCons(a: string, parts: seq<string>, c: char)
    requires |parts| >= 1
    ensures Join([a] + parts, c) == a + [c] + Join(parts, c)
  {
    assert ([a] + parts)[1..] == parts;
  }

  /** Joining pieces that hold no separator and splitting again gives the pieces back. */
  lemma {:induction false} SplitJoin(parts: seq<string>, c: char)
    requires |parts| >= 1 && forall k :: 0 <= k < |parts| ==> c !in parts[k]
    ensures Split(Join(parts, c), c) == parts
    decreases |parts|
  {
    if |parts| == 1 {
      assert Join(parts, c) == parts[0];
    } else {
      var a := parts[0];
      var rest := Join(parts[1..], c);
      assert Join(parts, c) == a + [c] + rest;
      SplitJoin(parts[1..], c);
      SplitAt(a, rest, c);
      assert parts == [a] + parts[1..];
    }
  }

  /** A string whose first separator follows `a` splits into `a` and the pieces of the rest. */
  lemma SplitAt(a: string, rest: string, c: char)
    requires c !in a
    ensures Split(a + [c] + rest, c) == [a] + Split(rest, c)
  {
    var s := a + [c] + rest;
    assert s[..|a|] == a;
    FirstIndexAt(s, c, |a|);
    assert s[|a| + 1..] == rest;
  }

  /** The first piece is the text before the first separator. */
  lemma SplitHead(s: string, c: char)
    ensures c !in s ==> Split(s, c) == [s]
    ensures c in s ==> |Split(s, c)| >= 2 && Split(s, c)[0] == s[..FirstIndex(s, c)]
  {
  }

  /** `a + c + b` with no separator inside `a` or `b` splits into exactly `[a, b]`. */
  lemma SplitTwo(a: string, b: string, c: char)
    requires c !in a && c !in b
    ensures Split(a + [c] + b, c) == [a, b]
  {
    var s := a + [c] + b;
    assert s[..|a|] == a;
    FirstIndexAt(s, c, |a|);
    assert s[|a| + 1..] == b;
  }

  /** Any position holding `c` with no `c` before it is the first index. */
  lemma {:induction false} FirstIndexAt(s: string, c: char, k: nat)
    requires k < |s| && s[k] == c && c !in s[..k]
    ensures FirstIndex(s, c) == k
  {
    if k > 0 {
      assert s[0] == s[..k][0];
      assert s[1..][..k - 1] == s[1..k];
      assert forall x :: x in s[1..k] ==> x in s[..k];
      FirstIndexAt(s[1..], c, k - 1);
    }
  }

  // ---------------------------------------------------------------------------
  // replace

  /** Python's `s.replace(pat, rep)`: every non-overlapping occurrence of `pat`, leftmost
      first, is replaced; an empty `pat` inserts `rep` around every character. */
  function ReplaceAll(s: string, pat: string, rep: string): string
    decreases |s|
  {
    if |pat| == 0 then
      if |s| == 0 then rep else rep + [s[0]] + ReplaceAll(s[1..], pat, rep)
    else if |s| == 0 then ""
    else if pat <= s then rep + ReplaceAll(s[|pat|..], pat, rep)
    else [s[0]] + ReplaceAll(s[1..], pat, rep)
  }

  /** Replacing introduces no character that is in neither the input nor the replacement. */
  lemma {:induction false} ReplaceAllChars(s: string, pat: string, rep: string, ch: char)
    requires ch in ReplaceAll(s, pat, rep)
    ensures ch in s || ch in rep
    decreases |s|
  {
    if |pat| == 0 {
      if |s| > 0 && ch in ReplaceAll(s[1..], pat, rep) {
        ReplaceAllChars(s[1..], pat, rep, ch);
      }
    } else if |s| > 0 {
      if pat <= s {
        if ch in ReplaceAll(s[|pat|..], pat, rep) {
          ReplaceAllChars(s[|pat|..], pat, rep, ch);
        }
      } else if ch in ReplaceAll(s[1..], pat, rep) {
        ReplaceAllChars(s[1..], pat, rep, ch);
      }
    }
  }

  /** Replacing a single character by text without it removes every occurrence of it. */
  lemma {:induction false} ReplaceCharRemoves(s: string, c: char, rep: string)
    requires c !in rep
    ensures c !in ReplaceAll(s, [c], rep)
    decreases |s|
  {
    if |s| > 0 {
      if [c] <= s {
        ReplaceCharRemoves(s[1..], c, rep);
      } else {
        ReplaceCharRemoves(s[1..], c, rep);
      }
    }
  }

  /** Replacing one character by one character keeps the length and changes exactly the
      positions that held it. */
  lemma {:induction false} ReplaceCharPointwise(s: string, c: char, d: char)
    ensures |ReplaceAll(s, [c], [d])| == |s|
    ensures forall i :: 0 <= i < |s| ==> ReplaceAll(s, [c], [d])[i] == if s[i] == c then d else s[i]
    decreases |s|
  {
    if |s| > 0 {
      ReplaceCharPointwise(s[1..], c, d);
      var r := ReplaceAll(s, [c], [d]);
      assert r == [if s[0] == c then d else s[0]] + ReplaceAll(s[1..], [c], [d]);
    }
  }

  /** Text that does not contain the pattern's first character passes through unchanged. */
  lemma {:induction false} ReplacePlain(a: string, c: string, pat: string, rep: string)
    requires |pat| > 0 && pat[0] !in a
    ensures ReplaceAll(a + c, pat, rep) == a + ReplaceAll(c, pat, rep)
    decreases |a|
  {
    if |a| > 0 {
      assert (a + c)[0] == a[0];
      assert (a + c)[1..] == a[1..] + c;
      ReplacePlain(a[1..], c, pat, rep);
    } else {
      assert a + c == c;
    }
  }

  /** A string without the pattern is left as it is. */
  lemma {:induction false} ReplaceAbsent(s: string, pat: string, rep: string)
    requires |pat| > 0 && !Contains(s, pat)
    ensures ReplaceAll(s, pat, rep) == s
    decreases |s|
  {
    if |s| > 0 {
      ReplaceAbsent(s[1..], pat, rep);
    }
  }

  // ---------------------------------------------------------------------------
  // strip

  /** The characters Python's `str.isspace` accepts, i.e. those `strip()` removes. */
  predicate IsSpace(c: char) {
    var n := c as int;
    (9 <= n <= 13) || (28 <= n <= 32) || n == 0x85 || n == 0xA0 || n == 0x1680
    || (0x2000 <= n <= 0x200A) || n == 0x2028 || n == 0x2029 || n == 0x202F
    || n == 0x205F || n == 0x3000
  }

  /** Python's `s.lstrip()`: the suffix left after dropping the leading whitespace. */
  function LStrip(s: string): (r: string)
    ensures |r| <= |s| && r == s[|s| - |r|..]
    ensures r == [] || !IsSpace(r[0])
    ensures forall i :: 0 <= i < |s| - |r| ==> IsSpace(s[i])
    decreases |s|
  {
    if |s| > 0 && IsSpace(s[0]) then LStrip(s[1..]) else s
  }

  /** Python's `s.rstrip()`: the prefix left after dropping the trailing whitespace. */
  function RStrip(s: string): (r: string)
    ensures |r| <= |s| && r == s[..|r|]
    ensures r == [] || !IsSpace(r[|r| - 1])
    ensures forall i :: |r| <= i < |s| ==> IsSpace(s[i])
    decreases |s|
  {
    if |s| > 0 && IsSpace(s[|s| - 1]) then RStrip(s[..|s| - 1]) else s
  }

  /** Python's `s.strip()`. */
  function Strip(s: string): string
  {
    RStrip(LStrip(s))
  }

  /** `strip()` leaves nothing exactly when every character is whitespace. */
  lemma StripEmptyIff(s: string)
    ensures Strip(s) == [] <==> forall i :: 0 <= i < |s| ==> IsSpace(s[i])
  {
    var l := LStrip(s);
    if Strip(s) == [] {
    } else {
      var r := Strip(s);
      assert !IsSpace(r[0]) || !IsSpace(r[|r| - 1]);
      assert r[0] == s[|s| - |l|];
    }
  }

  /** `strip()` keeps a string with no whitespace at either end. */
  lemma StripKeeps(s: string)
    requires forall i :: 0 <= i < |s| ==> !IsSpace(s[i])
    ensures Strip(s) == s
  {
  }

  // ---------------------------------------------------------------------------
  // Decimal numbers: str(n), zfill, int(s)

  predicate IsDigit(c: char) {
    '0' <= c <= '9'
  }

  predicate AllDigits(s: string) {
    forall i :: 0 <= i < |s| ==> IsDigit(s[i])
  }

  function DigitChar(d: nat): (c: char)
    requires d < 10
    ensures IsDigit(c) && c as int - '0' as int == d
  {
    ('0' as int + d) as char
  }

  /** Python's `str(n)` for a non-negative integer: its decimal digits, no leading zero. */
  function NatToString(n: nat): (r: string)
    ensures |r| >= 1 && AllDigits(r)
    ensures r[0] == '0' ==> n == 0
    decreases n
  {
    if n < 10 then [DigitChar(n)] else NatToString(n / 10) + [DigitChar(n % 10)]
  }

  /** The value of a string of decimal digits (leading zeros allowed). */
  function DigitsValue(s: string): nat
    requires AllDigits(s)
  {
    if |s| == 0 then 0
    else DigitsValue(s[..|s| - 1]) * 10 + (s[|s| - 1] as int - '0' as int)
  }

  /** Reading back the decimal rendering gives the number again. */
  lemma {:induction false} DigitsValueOfNat(n: nat)
    ensures DigitsValue(NatToString(n)) == n
    decreases n
  {
    if n >= 10 {
      DigitsValueOfNat(n / 10);
      var r := NatToString(n);
      assert r[..|r| - 1] == NatToString(n / 10);
    }
  }

  /** Different numbers get different decimal renderings. */
  lemma NatToStringInjective(m: nat, n: nat)
    requires NatToString(m) == NatToString(n)
    ensures m == n
  {
    DigitsValueOfNat(m);
    DigitsValueOfNat(n);
  }

  function Zeros(k: nat): (r: string)
    ensures |r| == k && forall i :: 0 <= i < k ==> r[i] == '0'
  {
    if k == 0 then "" else "0" + Zeros(k - 1)
  }

  /** Python's `s.zfill(width)` on an unsigned digit string (the only kind zero-filled
      here): pad on the left with '0' up to `width` characters, never truncate. */
  function ZFill(s: string, width: nat): string
  {
    if |s| >= width then s else Zeros(width - |s|) + s
  }

  /** A leading zero does not change the value of a digit string. */
  lemma {:induction false} DigitsValueLeadingZero(s: string)
    requires AllDigits(s)
    ensures AllDigits("0" + s) && DigitsValue("0" + s) == DigitsValue(s)
    decreases |s|
  {
    var t := "0" + s;
    if |s| > 0 {
      assert t[..|t| - 1] == "0" + s[..|s| - 1];
      DigitsValueLeadingZero(s[..|s| - 1]);
    }
  }

  lemma {:induction false} DigitsValueZeros(k: nat, s: string)
    requires AllDigits(s)
    ensures AllDigits(Zeros(k) + s) && DigitsValue(Zeros(k) + s) == DigitsValue(s)
    decreases k
  {
    if k > 0 {
      var t := Zeros(k - 1) + s;
      DigitsValueZeros(k - 1, s);
      assert Zeros(k) + s == "0" + t;
      DigitsValueLeadingZero(t);
    } else {
      assert Zeros(k) + s == s;
    }
  }

  /** `str(n).zfill(w)` is at least `w` long and still reads back as `n`: zero filling
      never loses the number. */
  lemma ZFillOfNat(n: nat, width: nat)
    ensures |ZFill(NatToString(n), width)| == if |NatToString(n)| >= width then |NatToString(n)| else width
    ensures AllDigits(ZFill(NatToString(n), width)) && DigitsValue(ZFill(NatToString(n), width)) == n
  {
    DigitsValueOfNat(n);
    var s := NatToString(n);
    if |s| < width {
      DigitsValueZeros(width - |s|, s);
    }
  }

  /** Digits with single underscores between them, as Python 3.6+ accepts in `int()`. */
  predicate IsDigitGroup(g: string) {
    && |g| > 0 && IsDigit(g[0]) && IsDigit(g[|g| - 1])
    && (forall i :: 0 <= i < |g| ==> IsDigit(g[i]) || g[i] == '_')
    && (forall i :: 0 <= i < |g| - 1 ==> !(g[i] == '_' && g[i + 1] == '_'))
  }

  function DropUnderscores(g: string): (r: string)
    requires forall i :: 0 <= i < |g| ==> IsDigit(g[i]) || g[i] == '_'
    ensures AllDigits(r)
    ensures AllDigits(g) ==> r == g
  {
    if |g| == 0 then ""
    else (if g[0] == '_' then "" else [g[0]]) + DropUnderscores(g[1..])
  }

  /** Python's `int(s)` in base 10 over ASCII digits: surrounding whitespace, one optional
      sign and single underscores between digits are accepted; anything else is a ValueError. */
  function ParseInt(s: string): Result<int>
  {
    var t := Strip(s);
    if |t| > 0 && (t[0] == '+' || t[0] == '-') then
      if IsDigitGroup(t[1..]) then
        var v: int := DigitsValue(DropUnderscores(t[1..]));
        Ok(if t[0] == '-' then -v else v)
      else Err(ValueError)
    else if IsDigitGroup(t) then Ok(DigitsValue(DropUnderscores(t)))
    else Err(ValueError)
  }

  /** `int(str(n)) == n`. */
  lemma ParseIntOfNat(n: nat)
    ensures ParseInt(NatToString(n)) == Ok(n)
  {
    var s := NatToString(n);
    assert forall i :: 0 <= i < |s| ==> !IsSpace(s[i]) by {
      forall i | 0 <= i < |s| ensures !IsSpace(s[i]) {
        assert IsDigit(s[i]);
      }
    }
    StripKeeps(s);
    DigitsAreGroup(s);
    assert !(s[0] == '+' || s[0] == '-') by {
      assert IsDigit(s[0]);
    }
    DigitsValueOfNat(n);
  }

  /** Plain digits form a digit group that has no underscore to drop. */
  lemma DigitsAreGroup(s: string)
    requires |s| > 0 && AllDigits(s)
    ensures IsDigitGroup(s) && DropUnderscores(s) == s
  {
  }

  // ---------------------------------------------------------------------------
  // Lists and paths

  /** Python's `lst.index(x)`: the first position of `x`, None where Python raises ValueError. */
  function IndexOf<T(==)>(s: seq<T>, x: T): (r: Option<nat>)
    ensures r.None? <==> x !in s
    ensures r.Some? ==> r.value < |s| && s[r.value] == x && x !in s[..r.value]
  {
    if |s| == 0 then None
    else if s[0] == x then Some(0)
    else match IndexOf(s[1..], x)
      case None => None
      case Some(k) =>
        assert s[..k + 1] == [s[0]] + s[1..][..k];
        Some(k + 1)
  }

  /** POSIX `os.path.join(a, b)`: an absolute `b` replaces `a`; otherwise one '/' separates them. */
  function PathJoin(a: string, b: string): string
  {
    if |b| > 0 && b[0] == '/' then b
    else if |a| == 0 || a[|a| - 1] == '/' then a + b
    else a + "/" + b
  }
}
