/** The three regular-expression substitutions both core files apply, written out as scans:
    `re.sub(r'<rt>.*?</rt>', '', s)` removes ruby annotations (non-greedy, and `.` does not
    match a newline), and `re.sub(r'!\[\]\([^)]+\)', '', s)` / `re.sub(r'\[\]\([^)]+\)', '', s)`
    remove empty-text Markdown image and link references with a non-empty target. */
module Patterns {
  import opened Wrappers
  import opened Text

  const RubyOpen: string := "<rt>"
  const RubyClose: string := "</rt>"
  const ImageLink: string := "![]("
  const PlainLink: string := "[]("

  /** Whether `c` is in the CJK block U+4E00..U+9FA5 that the chapter extractor tests. */
  predicate IsCjk(c: char) {
    0x4E00 <= c as int <= 0x9FA5
  }

  /** Where the shortest `.*?</rt>` tail of a ruby span ends in `t`: the first `</rt>`, if
      no newline comes before it. */
  function FindClose(t: string): (r: Option<nat>)
    ensures r.Some? ==> r.value + |RubyClose| <= |t| && RubyClose <= t[r.value..] && '\n' !in t[..r.value]
    decreases |t|
  {
    if |t| == 0 then None
    else if RubyClose <= t then Some(0)
    else if t[0] == '\n' then None
    else match FindClose(t[1..])
      case None => None
      case Some(k) =>
        assert t[1..][..k] == t[1..k + 1];
        Some(k + 1)
  }

  /** With no `<` and no newline in `b`, the span closes right after `b`. */
  lemma {:induction false} FindCloseAfter(b: string, c: string)
    requires '<' !in b && '\n' !in b
    ensures FindClose(b + RubyClose + c) == Some(|b|)
    decreases |b|
  {
    if |b| > 0 {
      assert (b + RubyClose + c)[1..] == b[1..] + RubyClose + c;
      assert !(RubyClose <= b + RubyClose + c) by {
        assert (b + RubyClose + c)[0] == b[0];
      }
      FindCloseAfter(b[1..], c);
    } else {
      assert b + RubyClose + c == RubyClose + c;
    }
  }

  /** `re.sub(r'<rt>.*?</rt>', '', s)`: at each position a ruby span is removed if one
      starts there; otherwise the character is kept and the scan moves on. */
  function RemoveRuby(s: string): (r: string)
    ensures |r| <= |s|
    decreases |s|
  {
    if |s| == 0 then ""
    else if RubyOpen <= s then
      match FindClose(s[|RubyOpen|..])
      case Some(k) => RemoveRuby(s[|RubyOpen| + k + |RubyClose|..])
      case None => [s[0]] + RemoveRuby(s[1..])
    else [s[0]] + RemoveRuby(s[1..])
  }

  /** Text without `<` passes through unchanged. */
  lemma {:induction false} RemoveRubyPlain(a: string, c: string)
    requires '<' !in a
    ensures RemoveRuby(a + c) == a + RemoveRuby(c)
    decreases |a|
  {
    if |a| > 0 {
      var s := a + c;
      assert s[0] == a[0] && s[1..] == a[1..] + c;
      assert RemoveRuby(s) == [a[0]] + RemoveRuby(a[1..] + c) by {
        assert !(RubyOpen <= s) by {
          assert s[0] != RubyOpen[0];
        }
        RemoveRubyKeeps(s);
      }
      assert RemoveRuby(a[1..] + c) == a[1..] + RemoveRuby(c) by {
        RemoveRubyPlain(a[1..], c);
      }
      assert a == [a[0]] + a[1..];
    } else {
      assert a + c == c;
    }
  }

  /** Where no ruby span starts, the first character is kept. */
  lemma RemoveRubyKeeps(s: string)
    requires |s| > 0 && !(RubyOpen <= s)
    ensures RemoveRuby(s) == [s[0]] + RemoveRuby(s[1..])
  {
  }

  /** A string without `<rt>` is left as it is. */
  lemma {:induction false} RemoveRubyAbsent(s: string)
    requires !Contains(s, RubyOpen)
    ensures RemoveRuby(s) == s
    decreases |s|
  {
    if |s| > 0 {
      assert !(RubyOpen <= s);
      assert !Contains(s[1..], RubyOpen);
      RemoveRubyAbsent(s[1..]);
    }
  }

  /** One ruby span is cut out together with its tags, and only that span: the removal is
      non-greedy, so the text after the first `</rt>` is scanned again. */
  lemma {:induction false} RemoveRubySpan(a: string, b: string, c: string)
    requires '<' !in a && '<' !in b && '\n' !in b
    ensures RemoveRuby(a + RubyOpen + b + RubyClose + c) == a + RemoveRuby(c)
  {
    var s := RubyOpen + b + RubyClose + c;
    Regroup(a, RubyOpen, b, RubyClose, c);
    assert RemoveRuby(a + s) == a + RemoveRuby(s) by {
      RemoveRubyPlain(a, s);
    }
    assert RemoveRuby(s) == RemoveRuby(c) by {
      RemoveRubyAtStart(b, c);
    }
  }

  lemma Regroup(a: string, b: string, c: string, d: string, e: string)
    ensures a + b + c + d + e == a + (b + c + d + e)
  {
  }

  /** A ruby span at the very start is cut out. */
  lemma RemoveRubyAtStart(b: string, c: string)
    requires '<' !in b && '\n' !in b
    ensures RemoveRuby(RubyOpen + b + RubyClose + c) == RemoveRuby(c)
  {
    var s := RubyOpen + b + RubyClose + c;
    assert RubyOpen <= s;
    assert s[|RubyOpen|..] == b + RubyClose + c;
    FindCloseAfter(b, c);
    RemoveRubyAtMatch(s, |b|);
    assert s[|RubyOpen| + |b| + |RubyClose|..] == c;
  }

  /** At a ruby span the scan resumes after its closing tag. */
  lemma RemoveRubyAtMatch(s: string, k: nat)
    requires RubyOpen <= s && FindClose(s[|RubyOpen|..]) == Some(k)
    ensures RemoveRuby(s) == RemoveRuby(s[|RubyOpen| + k + |RubyClose|..])
  {
  }

  /** A span broken by a newline is not a match: `.` does not cross lines. */
  lemma {:induction false} RemoveRubyNewline(b: string)
    requires '<' !in b
    ensures RemoveRuby(RubyOpen + b + "\n" + RubyClose) == RubyOpen + b + "\n" + RubyClose
  {
    var s := RubyOpen + b + "\n" + RubyClose;
    var rest := "rt>" + b + "\n";
    assert FindClose(s[|RubyOpen|..]) == None by {
      assert s[|RubyOpen|..] == b + "\n" + RubyClose;
      FindCloseStopsAtNewline(b, RubyClose);
    }
    assert s[1..] == rest + RubyClose;
    assert RemoveRuby(rest + RubyClose) == rest + RubyClose by {
      RemoveRubyPlain(rest, RubyClose);
      RemoveRubyAbsent(RubyClose);
    }
    RemoveRubyUnclosed(s);
    assert s == [s[0]] + s[1..];
  }

  /** A ruby opening tag whose span never closes on its line is kept like plain text. */
  lemma RemoveRubyUnclosed(s: string)
    requires RubyOpen <= s && FindClose(s[|RubyOpen|..]).None?
    ensures RemoveRuby(s) == [s[0]] + RemoveRuby(s[1..])
  {
  }

  lemma {:induction false} FindCloseStopsAtNewline(b: string, c: string)
    requires '<' !in b
    ensures FindClose(b + "\n" + c) == None
    decreases |b|
  {
    var t := b + "\n" + c;
    assert t[0] != '<' by {
      if |b| > 0 { assert t[0] == b[0]; }
    }
    assert !(RubyClose <= t);
    if |b| > 0 {
      assert t[1..] == b[1..] + "\n" + c;
      FindCloseStopsAtNewline(b[1..], c);
    }
  }

  /** Where a `[^)]+\)` target ends in `t`: at the first `)`, if at least one other
      character precedes it. */
  function TargetEnd(t: string): (r: Option<nat>)
    ensures r.Some? ==> 0 < r.value < |t| && t[r.value] == ')' && ')' !in t[..r.value]
    ensures r.None? <==> |t| == 0 || t[0] == ')' || ')' !in t
  {
    if |t| > 0 && t[0] != ')' && ')' in t then Some(FirstIndex(t, ')')) else None
  }

  /** `re.sub(opener + r'[^)]+\)', '', s)` for an opener such as `![](` or `[](`. */
  function RemoveLinks(s: string, opener: string): (r: string)
    requires |opener| > 0
    ensures |r| <= |s|
    decreases |s|
  {
    if |s| == 0 then ""
    else if opener <= s && TargetEnd(s[|opener|..]).Some? then
      RemoveLinks(s[|opener| + TargetEnd(s[|opener|..]).value + 1..], opener)
    else [s[0]] + RemoveLinks(s[1..], opener)
  }

  /** Text that does not contain the opener's first character passes through. */
  lemma {:induction false} RemoveLinksPlain(a: string, c: string, opener: string)
    requires |opener| > 0 && opener[0] !in a
    ensures RemoveLinks(a + c, opener) == a + RemoveLinks(c, opener)
    decreases |a|
  {
    if |a| > 0 {
      assert (a + c)[0] == a[0];
      assert !(opener <= a + c);
      assert (a + c)[1..] == a[1..] + c;
      RemoveLinksPlain(a[1..], c, opener);
    } else {
      assert a + c == c;
    }
  }

  /** The target of `target + ")" + c` ends right after `target`. */
  lemma {:induction false} TargetEndAfter(target: string, c: string)
    requires |target| > 0 && ')' !in target
    ensures TargetEnd(target + ")" + c) == Some(|target|)
  {
    var t := target + ")" + c;
    assert t[0] == target[0];
    assert t[|target|] == ')';
    assert t[..|target|] == target;
    FirstIndexAt(t, ')', |target|);
  }

  /** A link at the very start is cut out. */
  lemma {:induction false} RemoveLinksAtStart(target: string, c: string, opener: string)
    requires |opener| > 0 && |target| > 0 && ')' !in target
    ensures RemoveLinks(opener + target + ")" + c, opener) == RemoveLinks(c, opener)
  {
    var s := opener + target + ")" + c;
    assert opener <= s;
    assert s[|opener|..] == target + ")" + c;
    TargetEndAfter(target, c);
    RemoveLinksAtMatch(s, opener);
    assert s[|opener| + |target| + 1..] == c;
  }

  /** At a match the scan resumes after the closing parenthesis. */
  lemma RemoveLinksAtMatch(s: string, opener: string)
    requires |opener| > 0 && opener <= s && TargetEnd(s[|opener|..]).Some?
    ensures RemoveLinks(s, opener) == RemoveLinks(s[|opener| + TargetEnd(s[|opener|..]).value + 1..], opener)
  {
  }

  /** A link with a non-empty target is cut out, opener to closing parenthesis. */
  lemma {:induction false} RemoveLinksSpan(a: string, target: string, c: string, opener: string)
    requires |opener| > 0 && opener[0] !in a
    requires |target| > 0 && ')' !in target
    ensures RemoveLinks(a + opener + target + ")" + c, opener) == a + RemoveLinks(c, opener)
  {
    var s := opener + target + ")" + c;
    Regroup(a, opener, target, ")", c);
    assert RemoveLinks(a + s, opener) == a + RemoveLinks(s, opener) by {
      RemoveLinksPlain(a, s, opener);
    }
    assert RemoveLinks(s, opener) == RemoveLinks(c, opener) by {
      RemoveLinksAtStart(target, c, opener);
    }
  }

  /** Removing links introduces no character: the output keeps input characters only. */
  lemma {:induction false} RemoveLinksChars(s: string, opener: string, ch: char)
    requires |opener| > 0 && ch in RemoveLinks(s, opener)
    ensures ch in s
    decreases |s|
  {
    if |s| > 0 {
      if opener <= s && TargetEnd(s[|opener|..]).Some? {
        var rest := s[|opener| + TargetEnd(s[|opener|..]).value + 1..];
        RemoveLinksChars(rest, opener, ch);
        assert rest == s[|s| - |rest|..];
      } else if ch != s[0] {
        RemoveLinksChars(s[1..], opener, ch);
      }
    }
  }

  /** An empty target is not a match: `[]()` stays. */
  lemma {:induction false} RemoveLinksEmptyTarget()
    ensures RemoveLinks("[]()", PlainLink) == "[]()"
  {
    var s := "[]()";
    assert s[|PlainLink|..] == ")";
    assert RemoveLinks(s, PlainLink) == [s[0]] + RemoveLinks(s[1..], PlainLink);
    RemoveLinksPlain("]()", "", PlainLink);
    assert s[1..] == "]()" + "";
  }

  /** The two passes run in the order image links, then plain links: an image reference
      `![](t)` vanishes entirely, where the plain-link pass alone would leave its `!`. */
  lemma {:induction false} LinkPassOrder(target: string)
    requires |target| > 0 && ')' !in target && '!' !in target && '[' !in target
    ensures RemoveLinks(RemoveLinks(ImageLink + target + ")", ImageLink), PlainLink) == ""
    ensures RemoveLinks(ImageLink + target + ")", PlainLink) == "!"
  {
    RemoveLinksSpan("", target, "", ImageLink);
    assert "" + ImageLink + target + ")" + "" == ImageLink + target + ")";
    assert ImageLink + target + ")" == "!" + (PlainLink + target + ")");
    RemoveLinksSpan("!", target, "", PlainLink);
    assert "!" + PlainLink + target + ")" + "" == "!" + (PlainLink + target + ")");
  }
}
