/** `sanitize_filename`: turn a chat's display label into a string that is
    safe inside a file name. Four steps, in this order: replace each reserved
    character by `_`, strip surrounding whitespace, collapse every run of
    whitespace and underscores into one `_`, keep at most 200 characters.
    Only whitespace is stripped; leading or trailing dots stay. */
module Sanitize {
  import opened Text
  import opened Seqs

  /** The characters `\ / : * ? " < > |`, which file systems refuse. */
  predicate IsReserved(c: char) {
    c == '\\' || c == '/' || c == ':' || c == '*' || c == '?' || c == '"' || c == '<' || c == '>' || c == '|'
  }

  predicate NoReserved(s: string) {
    forall i :: 0 <= i < |s| ==> !IsReserved(s[i])
  }

  /** The characters `[\s_]` that the collapsing step merges. */
  predicate IsSeparator(c: char) {
    IsSpace(c) || c == '_'
  }

  /** No two consecutive underscores. */
  predicate NoDoubleUnderscore(s: string) {
    forall i :: 0 <= i < |s| - 1 ==> !(s[i] == '_' && s[i + 1] == '_')
  }

  const MaxNameLength: nat := 200

  /** A string the sanitizer accepts as it is. */
  predicate IsClean(s: string) {
    NoReserved(s) && NoSpace(s) && NoDoubleUnderscore(s) && |s| <= MaxNameLength
  }

  /** Step one: every reserved character becomes `_`, every other
      character stays where it is. */
  function ReplaceReserved(s: string): (r: string)
    ensures |r| == |s| && NoReserved(r)
    ensures forall i :: 0 <= i < |s| ==> r[i] == (if IsReserved(s[i]) then '_' else s[i])
    ensures NoReserved(s) ==> r == s
  {
    if s == [] then [] else [if IsReserved(s[0]) then '_' else s[0]] + ReplaceReserved(s[1..])
  }

  /** Drop a leading run of separators. */
  function DropSeparators(s: string): (r: string)
    ensures |r| <= |s| && r == s[|s| - |r|..]
    ensures r == [] || !IsSeparator(r[0])
  {
    if s != [] && IsSeparator(s[0]) then DropSeparators(s[1..]) else s
  }

  /** Step three: each maximal run of whitespace and underscores becomes a
      single `_`. */
  function Collapse(s: string): (r: string)
    ensures |r| <= |s|
    decreases |s|
  {
    if s == [] then []
    else if IsSeparator(s[0]) then "_" + Collapse(DropSeparators(s[1..]))
    else [s[0]] + Collapse(s[1..])
  }

  /** The collapsed string starts with `_` exactly when the input starts
      with a separator, and otherwise with the input's first character. */
  lemma CollapseHead(s: string)
    requires s != []
    ensures Collapse(s) != [] && Collapse(s)[0] == (if IsSeparator(s[0]) then '_' else s[0])
  {
  }

  /** A character that survives collapsing as it is. */
  predicate NotSeparator(c: char) {
    !IsSeparator(c)
  }

  /** The text of `s` without its separators. */
  function Words(s: string): string {
    Filter(NotSeparator, s)
  }

  /** Dropping a run of separators drops no other character. */
  lemma {:induction false} DropKeepsWords(s: string)
    ensures Words(DropSeparators(s)) == Words(s)
  {
    if s != [] && IsSeparator(s[0]) {
      DropKeepsWords(s[1..]);
    }
  }

  /** Collapsing keeps every character other than whitespace and `_`, in
      order: only the separator runs change. */
  lemma {:induction false} CollapseKeepsWords(s: string)
    ensures Words(Collapse(s)) == Words(s)
    decreases |s|
  {
    if s != [] {
      if IsSeparator(s[0]) {
        var rest := DropSeparators(s[1..]);
        CollapseKeepsWords(rest);
        DropKeepsWords(s[1..]);
        assert ("_" + Collapse(rest))[1..] == Collapse(rest);
      } else {
        CollapseKeepsWords(s[1..]);
        assert ([s[0]] + Collapse(s[1..]))[1..] == Collapse(s[1..]);
      }
    }
  }

  /** A run between two words becomes exactly one `_`: "My Chat" collapses
      to "My_Chat", and "a _ b" to "a_b". */
  lemma CollapseSplit(a: string, r: string, b: string)
    requires a != [] && !IsSeparator(a[|a| - 1])
    requires r != [] && forall i :: 0 <= i < |r| ==> IsSeparator(r[i])
    requires b == [] || !IsSeparator(b[0])
    ensures Collapse(a + r + b) == Collapse(a) + "_" + Collapse(b)
  {
    assert a + r + b == a + (r + b);
    CollapseAfterWord(a, r + b);
    CollapseRun(r, b);
  }

  /** A leading run of separators collapses to one `_` before the rest. */
  lemma CollapseRun(r: string, b: string)
    requires r != [] && forall i :: 0 <= i < |r| ==> IsSeparator(r[i])
    requires b == [] || !IsSeparator(b[0])
    ensures Collapse(r + b) == "_" + Collapse(b)
  {
    assert (r + b)[0] == r[0];
    assert (r + b)[1..] == r[1..] + b;
    DropRun(r[1..], b);
  }

  /** `DropSeparators` consumes a run of separators up to the next word. */
  lemma {:induction false} DropRun(r: string, b: string)
    requires forall i :: 0 <= i < |r| ==> IsSeparator(r[i])
    requires b == [] || !IsSeparator(b[0])
    ensures DropSeparators(r + b) == b
    decreases |r|
  {
    if r == [] {
      assert r + b == b;
    } else {
      assert (r + b)[0] == r[0];
      assert (r + b)[1..] == r[1..] + b;
      DropRun(r[1..], b);
    }
  }

  /** Text that ends with a word collapses on its own: what follows is
      collapsed separately and appended. */
  lemma {:induction false} CollapseAfterWord(a: string, t: string)
    requires a != [] && !IsSeparator(a[|a| - 1])
    ensures Collapse(a + t) == Collapse(a) + Collapse(t)
    decreases |a|
  {
    if IsSeparator(a[0]) {
      DropBeforeWordEnd(a[1..]);
      DropBeforeWord(a[1..], t);
      CollapseAfterWord(DropSeparators(a[1..]), t);
      CollapseSeparatorStep(a, t);
    } else if |a| == 1 {
      assert a[1..] + t == t;
      CollapseWordStep(a, t);
    } else {
      CollapseAfterWord(a[1..], t);
      CollapseWordStep(a, t);
    }
  }

  /** One step of `CollapseAfterWord` for a leading separator. */
  lemma CollapseSeparatorStep(a: string, t: string)
    requires a != [] && IsSeparator(a[0])
    requires DropSeparators(a[1..] + t) == DropSeparators(a[1..]) + t
    requires Collapse(DropSeparators(a[1..]) + t) == Collapse(DropSeparators(a[1..])) + Collapse(t)
    ensures Collapse(a + t) == Collapse(a) + Collapse(t)
  {
    CollapseSeparatorHead(a, t);
    CollapseSeparatorHead(a, []);
    assert a + [] == a && a[1..] + [] == a[1..];
    PrefixAssoc("_", Collapse(DropSeparators(a[1..])), Collapse(t), Collapse(a + t), Collapse(a));
  }

  /** One step of `CollapseAfterWord` for a leading word character. */
  lemma CollapseWordStep(a: string, t: string)
    requires a != [] && !IsSeparator(a[0])
    requires Collapse(a[1..] + t) == Collapse(a[1..]) + Collapse(t)
    ensures Collapse(a + t) == Collapse(a) + Collapse(t)
  {
    CollapseWordHead(a, t);
    CollapseWordHead(a, []);
    assert a + [] == a && a[1..] + [] == a[1..];
    PrefixAssoc([a[0]], Collapse(a[1..]), Collapse(t), Collapse(a + t), Collapse(a));
  }

  /** `Collapse` of `a + t` unfolded once, `a` starting with a separator. */
  lemma CollapseSeparatorHead(a: string, t: string)
    requires a != [] && IsSeparator(a[0])
    ensures Collapse(a + t) == "_" + Collapse(DropSeparators(a[1..] + t))
  {
    assert (a + t)[0] == a[0] && (a + t)[1..] == a[1..] + t;
  }

  /** `Collapse` of `a + t` unfolded once, `a` starting with a word
      character. */
  lemma CollapseWordHead(a: string, t: string)
    requires a != [] && !IsSeparator(a[0])
    ensures Collapse(a + t) == [a[0]] + Collapse(a[1..] + t)
  {
    assert (a + t)[0] == a[0] && (a + t)[1..] == a[1..] + t;
  }

  lemma PrefixAssoc(h: string, x: string, y: string, p: string, q: string)
    requires p == h + (x + y) && q == h + x
    ensures p == q + y
  {
  }

  /** Text that ends with a word keeps that word, and its last character,
      after its leading separators are dropped. */
  lemma {:induction false} DropBeforeWordEnd(x: string)
    requires x != [] && !IsSeparator(x[|x| - 1])
    ensures DropSeparators(x) != [] && DropSeparators(x)[|DropSeparators(x)| - 1] == x[|x| - 1]
    decreases |x|
  {
    if IsSeparator(x[0]) {
      DropBeforeWordEnd(x[1..]);
    }
  }

  /** Where a word follows, dropping the leading separators of `x + t` is
      dropping those of `x`. */
  lemma {:induction false} DropBeforeWord(x: string, t: string)
    requires DropSeparators(x) != []
    ensures DropSeparators(x + t) == DropSeparators(x) + t
    decreases |x|
  {
    assert (x + t)[0] == x[0];
    if IsSeparator(x[0]) {
      assert (x + t)[1..] == x[1..] + t;
      DropBeforeWord(x[1..], t);
    }
  }

  /** Every run of separators that `DropSeparators` consumes entirely is
      made of separators only. */
  lemma {:induction false} DropAllSeparators(s: string)
    requires DropSeparators(s) == []
    ensures forall i :: 0 <= i < |s| ==> IsSeparator(s[i])
  {
    if s != [] {
      DropAllSeparators(s[1..]);
      assert forall i :: 1 <= i < |s| ==> s[i] == s[1..][i - 1];
    }
  }

  /** What the last character of `s` becomes once collapsed. */
  function LastOut(s: string): char
    requires s != []
  {
    if IsSeparator(s[|s| - 1]) then '_' else s[|s| - 1]
  }

  /** The collapsed string ends with `_` exactly when the input ends with
      a separator, and otherwise with the input's last character. */
  lemma {:induction false} CollapseLast(s: string)
    requires s != []
    ensures Collapse(s) != [] && Collapse(s)[|Collapse(s)| - 1] == LastOut(s)
    decreases |s|
  {
    if IsSeparator(s[0]) {
      var rest := DropSeparators(s[1..]);
      if rest == [] {
        CollapseLastAllSeparators(s);
      } else {
        CollapseLast(rest);
        CollapseLastAfterRun(s, rest);
        DropKeepsLast(s[1..]);
        assert rest[|rest| - 1] == s[|s| - 1];
      }
    } else if |s| == 1 {
      assert Collapse(s) == [s[0]] + Collapse([]);
    } else {
      CollapseLast(s[1..]);
      CollapseLastAfterChar(s);
    }
  }

  lemma CollapseLastAllSeparators(s: string)
    requires s != [] && IsSeparator(s[0]) && DropSeparators(s[1..]) == []
    ensures Collapse(s) == "_" && LastOut(s) == '_'
  {
    DropAllSeparators(s[1..]);
    if |s| > 1 {
      assert s[|s| - 1] == s[1..][|s| - 2];
    }
  }

  lemma CollapseLastAfterRun(s: string, rest: string)
    requires s != [] && IsSeparator(s[0]) && rest == DropSeparators(s[1..])
    requires Collapse(rest) != []
    ensures Collapse(s) != [] && Collapse(s)[|Collapse(s)| - 1] == Collapse(rest)[|Collapse(rest)| - 1]
  {
    var c := Collapse(rest);
    assert Collapse(s) == "_" + c;
    LastOfCons('_', c);
  }

  lemma DropKeepsLast(t: string)
    requires DropSeparators(t) != []
    ensures t != [] && DropSeparators(t)[|DropSeparators(t)| - 1] == t[|t| - 1]
  {
  }

  lemma CollapseLastAfterChar(s: string)
    requires |s| > 1 && !IsSeparator(s[0])
    requires Collapse(s[1..]) != [] && Collapse(s[1..])[|Collapse(s[1..])| - 1] == LastOut(s[1..])
    ensures Collapse(s) != [] && Collapse(s)[|Collapse(s)| - 1] == LastOut(s)
  {
    CollapseWordHead(s, []);
    assert s + [] == s && s[1..] + [] == s[1..];
    LastOutOfTail(s);
    LastOfCons(s[0], Collapse(s[1..]));
  }

  lemma LastOutOfTail(s: string)
    requires |s| > 1
    ensures LastOut(s[1..]) == LastOut(s)
  {
    assert s[1..][|s| - 2] == s[|s| - 1];
  }

  lemma LastOfCons(c: char, t: string)
    requires t != []
    ensures ([c] + t)[|t|] == t[|t| - 1]
  {
  }

  /** Collapsing leaves no whitespace. */
  lemma {:induction false} CollapseNoSpace(s: string)
    ensures NoSpace(Collapse(s))
    decreases |s|
  {
    if s != [] {
      var rest := if IsSeparator(s[0]) then DropSeparators(s[1..]) else s[1..];
      CollapseNoSpace(rest);
      ConsNoSpace(Collapse(s)[0], Collapse(rest));
      assert Collapse(s) == [Collapse(s)[0]] + Collapse(rest);
    }
  }

  lemma ConsNoSpace(c: char, t: string)
    requires !IsSpace(c) && NoSpace(t)
    ensures NoSpace([c] + t)
  {
    assert forall i :: 1 <= i < |t| + 1 ==> ([c] + t)[i] == t[i - 1];
  }

  /** Collapsing adds no character other than `_`, so no reserved one. */
  lemma {:induction false} CollapseNoReserved(s: string)
    requires NoReserved(s)
    ensures NoReserved(Collapse(s))
    decreases |s|
  {
    if s != [] {
      var rest := if IsSeparator(s[0]) then DropSeparators(s[1..]) else s[1..];
      assert NoReserved(rest) by {
        forall i | 0 <= i < |rest| ensures !IsReserved(rest[i]) {
          assert rest[i] == s[|s| - |rest| + i];
        }
      }
      CollapseNoReserved(rest);
      ConsNoReserved(Collapse(s)[0], Collapse(rest));
      assert Collapse(s) == [Collapse(s)[0]] + Collapse(rest);
    }
  }

  lemma ConsNoReserved(c: char, t: string)
    requires !IsReserved(c) && NoReserved(t)
    ensures NoReserved([c] + t)
  {
    assert forall i :: 1 <= i < |t| + 1 ==> ([c] + t)[i] == t[i - 1];
  }

  /** Collapsing leaves no two underscores in a row. */
  lemma {:induction false} CollapseNoDouble(s: string)
    ensures NoDoubleUnderscore(Collapse(s))
    decreases |s|
  {
    if s != [] {
      var r := Collapse(s);
      var rest := if IsSeparator(s[0]) then DropSeparators(s[1..]) else s[1..];
      CollapseNoDouble(rest);
      assert r[1..] == Collapse(rest);
      if rest != [] {
        CollapseHead(rest);
      }
      forall i | 0 <= i < |r| - 1 ensures !(r[i] == '_' && r[i + 1] == '_') {
        if i > 0 {
          assert r[i] == Collapse(rest)[i - 1] && r[i + 1] == Collapse(rest)[i];
        }
      }
    }
  }

  /** The collapsed string has no whitespace and no `__`, and no reserved
      character when the input had none. */
  lemma CollapseClean(s: string)
    ensures NoSpace(Collapse(s)) && NoDoubleUnderscore(Collapse(s))
    ensures NoReserved(s) ==> NoReserved(Collapse(s))
  {
    CollapseNoSpace(s);
    CollapseNoDouble(s);
    if NoReserved(s) {
      CollapseNoReserved(s);
    }
  }

  /** Step four: Python's `s[:200]`. */
  function Truncate(s: string): (r: string)
    ensures |r| <= MaxNameLength && |r| <= |s| && r == s[..|r|]
    ensures |s| <= MaxNameLength ==> r == s
  {
    if |s| <= MaxNameLength then s else s[..MaxNameLength]
  }

  /** `sanitize_filename(name)`. */
  function SanitizeFilename(name: string): string {
    Truncate(Collapse(Strip(ReplaceReserved(name))))
  }

  /** A sanitized name contains no reserved character and no whitespace,
      never two underscores in a row, and is at most 200 characters long. */
  lemma SanitizeIsClean(name: string)
    ensures IsClean(SanitizeFilename(name))
  {
    var r := ReplaceReserved(name);
    StripKeepsNoReserved(r);
    var c := Collapse(Strip(r));
    CollapseClean(Strip(r));
    PrefixStaysClean(c, |Truncate(c)|);
  }

  /** Stripping adds no character, so no reserved one. */
  lemma StripKeepsNoReserved(r: string)
    requires NoReserved(r)
    ensures NoReserved(Strip(r))
  {
    StripSlice(r);
    var lead := LeadingSpaces(r);
    forall i | 0 <= i < |Strip(r)| ensures !IsReserved(Strip(r)[i]) {
      assert Strip(r)[i] == r[lead + i];
    }
  }

  /** A prefix of a string without reserved characters, whitespace or `__`
      has none either. */
  lemma PrefixStaysClean(c: string, n: nat)
    requires n <= |c| && NoReserved(c) && NoSpace(c) && NoDoubleUnderscore(c)
    ensures NoReserved(c[..n]) && NoSpace(c[..n]) && NoDoubleUnderscore(c[..n])
  {
    assert forall i :: 0 <= i < n ==> c[..n][i] == c[i];
  }

  /** Collapsing leaves a string alone when it has no whitespace and no `__`. */
  lemma {:induction false} CollapseIdentity(s: string)
    requires NoSpace(s) && NoDoubleUnderscore(s)
    ensures Collapse(s) == s
  {
    if s != [] {
      assert NoSpace(s[1..]) && NoDoubleUnderscore(s[1..]) by {
        forall i | 0 <= i < |s[1..]| - 1 ensures !(s[1..][i] == '_' && s[1..][i + 1] == '_') {
          assert s[1..][i] == s[i + 1] && s[1..][i + 1] == s[i + 2];
        }
      }
      if IsSeparator(s[0]) {
        assert s[0] == '_';
        assert DropSeparators(s[1..]) == s[1..] by {
          if s[1..] != [] {
            assert s[1..][0] == s[1];
            assert !IsSeparator(s[1]);
          }
        }
      }
      CollapseIdentity(s[1..]);
    }
  }

  /** The clean strings are exactly the fixed points: a clean name comes
      back unchanged. */
  lemma SanitizeFixedPoint(s: string)
    requires IsClean(s)
    ensures SanitizeFilename(s) == s
  {
    StripNoSpace(s);
    CollapseIdentity(s);
  }

  /** Two words separated by whitespace or underscores are sanitized on
      their own and joined by one `_`: "My Chat" gives "My_Chat". */
  lemma SanitizeSplit(a: string, r: string, b: string)
    requires a != [] && !IsSpace(a[0]) && !IsSeparator(a[|a| - 1])
    requires r != [] && forall i :: 0 <= i < |r| ==> IsSeparator(r[i])
    requires b != [] && !IsSeparator(b[0]) && !IsSpace(b[|b| - 1])
    requires NoReserved(a + r + b) && |a + r + b| <= MaxNameLength
    ensures SanitizeFilename(a + r + b) == SanitizeFilename(a) + "_" + SanitizeFilename(b)
  {
    var name := a + r + b;
    assert NoReserved(a) by {
      forall i | 0 <= i < |a| ensures !IsReserved(a[i]) { assert a[i] == name[i]; }
    }
    assert NoReserved(b) by {
      forall i | 0 <= i < |b| ensures !IsReserved(b[i]) { assert b[i] == name[|a| + |r| + i]; }
    }
    assert name[0] == a[0] && name[|name| - 1] == b[|b| - 1];
    SanitizeUnstripped(name);
    SanitizeUnstripped(a);
    SanitizeUnstripped(b);
    CollapseSplit(a, r, b);
  }

  /** A name with no reserved character, not starting or ending with
      whitespace and short enough is only collapsed. */
  lemma SanitizeUnstripped(s: string)
    requires s != [] && !IsSpace(s[0]) && !IsSpace(s[|s| - 1])
    requires NoReserved(s) && |s| <= MaxNameLength
    ensures SanitizeFilename(s) == Collapse(s)
  {
  }

  /** Two clean words around a run of whitespace or underscores come out
      joined by a single `_`, as "My Chat" gives "My_Chat". */
  lemma SanitizeJoinsWords(a: string, r: string, b: string)
    requires IsClean(a) && a != [] && a[|a| - 1] != '_'
    requires r != [] && forall i :: 0 <= i < |r| ==> IsSeparator(r[i])
    requires IsClean(b) && b != [] && b[0] != '_'
    requires NoReserved(r) && |a + r + b| <= MaxNameLength
    ensures SanitizeFilename(a + r + b) == a + "_" + b
  {
    var name := a + r + b;
    assert NoReserved(name) by {
      forall i | 0 <= i < |name| ensures !IsReserved(name[i]) {
        if i < |a| { assert name[i] == a[i]; }
        else if i < |a| + |r| { assert name[i] == r[i - |a|]; }
        else { assert name[i] == b[i - |a| - |r|]; }
      }
    }
    SanitizeSplit(a, r, b);
    SanitizeFixedPoint(a);
    SanitizeFixedPoint(b);
  }

  /** `sanitize_filename` is idempotent. */
  lemma SanitizeIdempotent(name: string)
    ensures SanitizeFilename(SanitizeFilename(name)) == SanitizeFilename(name)
  {
    SanitizeIsClean(name);
    SanitizeFixedPoint(SanitizeFilename(name));
  }

  /** Stripping a string that neither starts nor ends with whitespace
      leaves it alone at that end: the first (last) character stays. */
  lemma StripKeepsEnds(r: string)
    requires r != [] && (!IsSpace(r[0]) || !IsSpace(r[|r| - 1]))
    ensures Strip(r) != []
    ensures !IsSpace(r[0]) ==> Strip(r)[0] == r[0]
    ensures !IsSpace(r[|r| - 1]) ==> Strip(r)[|Strip(r)| - 1] == r[|r| - 1]
  {
    StripIsTrimmedSlice(r);
    var lead := LeadingSpaces(r);
    if !IsSpace(r[0]) {
      assert lead == 0;
    }
    if !IsSpace(r[|r| - 1]) {
      assert lead + |Strip(r)| == |r|;
    }
  }

  /** Only whitespace is stripped: a name that starts with a dot still
      starts with one once sanitized. */
  lemma LeadingDotKept(name: string)
    requires name != [] && name[0] == '.'
    ensures SanitizeFilename(name) != [] && SanitizeFilename(name)[0] == '.'
  {
    var r := ReplaceReserved(name);
    StripKeepsEnds(r);
    CollapseHead(Strip(r));
  }

  /** Likewise a trailing dot survives, as long as truncation does not cut
      it off. */
  lemma TrailingDotKept(name: string)
    requires name != [] && name[|name| - 1] == '.' && |name| <= MaxNameLength
    ensures SanitizeFilename(name) != [] && SanitizeFilename(name)[|SanitizeFilename(name)| - 1] == '.'
  {
    var r := ReplaceReserved(name);
    assert r[|r| - 1] == '.';
    StripKeepsEnds(r);
    var c := Collapse(Strip(r));
    CollapseLast(Strip(r));
    assert |c| <= MaxNameLength;
    assert SanitizeFilename(name) == c;
  }

  /** The sanitized name keeps, in order, every character of the name that
      is neither reserved, whitespace nor `_`: it is a prefix of them, and
      all of them when the name fits in 200 characters. */
  lemma SanitizeKeepsWords(name: string)
    ensures var w := Words(SanitizeFilename(name));
      |w| <= |Filter(IsWordChar, name)| && w == Filter(IsWordChar, name)[..|w|]
    ensures |name| <= MaxNameLength ==> Words(SanitizeFilename(name)) == Filter(IsWordChar, name)
  {
    ReplacedWords(name);
    var r := ReplaceReserved(name);
    StripKeepsWords(r);
    var c := Collapse(Strip(r));
    CollapseKeepsWords(Strip(r));
    PrefixWords(c, |Truncate(c)|);
  }

  /** The words of a prefix are a prefix of the words. */
  lemma PrefixWords(c: string, n: nat)
    requires n <= |c|
    ensures |Words(c[..n])| <= |Words(c)| && Words(c[..n]) == Words(c)[..|Words(c[..n])|]
  {
    assert c == c[..n] + c[n..];
    FilterConcat(NotSeparator, c[..n], c[n..]);
  }

  /** Stripping removes whitespace only, so no character of the words. */
  lemma StripKeepsWords(r: string)
    ensures Words(Strip(r)) == Words(r)
  {
    StripIsTrimmedSlice(r);
    WordsOfTrimmed(r, Strip(r), LeadingSpaces(r), LeadingSpaces(r) + |Strip(r)|);
  }

  /** Cutting whitespace off both ends keeps the words. */
  lemma WordsOfTrimmed(r: string, t: string, lo: nat, hi: nat)
    requires lo <= hi <= |r| && t == r[lo..hi]
    requires forall k :: 0 <= k < lo ==> IsSpace(r[k])
    requires forall k :: hi <= k < |r| ==> IsSpace(r[k])
    ensures Words(t) == Words(r)
  {
    var before, after := r[..lo], r[hi..];
    assert Words(r) == Words(before) + Words(t) + Words(after) by {
      assert r == before + t + after;
      FilterConcat(NotSeparator, before + t, after);
      FilterConcat(NotSeparator, before, t);
    }
    assert Words(before) == [] by {
      assert forall i :: 0 <= i < |before| ==> before[i] == r[i];
      SpacesHaveNoWords(before);
    }
    assert Words(after) == [] by {
      assert forall i :: 0 <= i < |after| ==> after[i] == r[hi + i];
      SpacesHaveNoWords(after);
    }
    assert Words(before) + Words(t) + Words(after) == Words(t);
  }

  lemma {:induction false} SpacesHaveNoWords(x: string)
    requires forall i :: 0 <= i < |x| ==> IsSpace(x[i])
    ensures Words(x) == []
  {
    if x != [] {
      assert forall i :: 0 <= i < |x[1..]| ==> x[1..][i] == x[i + 1];
      SpacesHaveNoWords(x[1..]);
    }
  }

  /** The words of the name once each reserved character is replaced: the
      characters of the name that are neither reserved nor separators. */
  lemma {:induction false} ReplacedWords(name: string)
    ensures Words(ReplaceReserved(name)) == Filter(IsWordChar, name)
  {
    if name != [] {
      ReplacedWords(name[1..]);
      assert ReplaceReserved(name)[1..] == ReplaceReserved(name[1..]);
    }
  }

  /** What `sanitize_filename` keeps of a name as it is. */
  predicate IsWordChar(c: char) {
    !IsReserved(c) && !IsSeparator(c)
  }
}
