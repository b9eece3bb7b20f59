/** Characters and strings as the chatbot treats them: Python's and JavaScript's
    whitespace classes, ASCII case folding, decimal digits, stripping, substring
    search and the single-placeholder formatting the response templates use. */
module Text {

  datatype Option<T> = None | Some(value: T)

  /** Python's `str.isspace()` class, which is also what `str.strip()` removes
      and what `\s` matches in a `str` pattern. */
  predicate IsPySpace(c: char) {
    || ('\t' <= c <= '\r')                     // \t \n \v \f \r
    || ('\U{1C}' <= c <= '\U{1F}')             // file, group, record and unit separators
    || c == ' ' || c == '\U{85}' || c == '\U{A0}' || c == '\U{1680}'
    || ('\U{2000}' <= c <= '\U{200A}')
    || c == '\U{2028}' || c == '\U{2029}' || c == '\U{202F}' || c == '\U{205F}' || c == '\U{3000}'
  }

  /** ECMAScript WhiteSpace and LineTerminator, what `String.prototype.trim` removes. */
  predicate IsJsSpace(c: char) {
    || ('\t' <= c <= '\r')
    || c == ' ' || c == '\U{A0}' || c == '\U{1680}'
    || ('\U{2000}' <= c <= '\U{200A}')
    || c == '\U{2028}' || c == '\U{2029}' || c == '\U{202F}' || c == '\U{205F}' || c == '\U{3000}'
    || c == '\U{FEFF}'
  }

  predicate IsDigit(c: char) { '0' <= c <= '9' }

  predicate AllDigits(s: string) { forall i :: 0 <= i < |s| ==> IsDigit(s[i]) }

  predicate IsUpper(c: char) { 'A' <= c <= 'Z' }

  function LowerChar(c: char): char {
    if IsUpper(c) then (c as int + 32) as char else c
  }

  /** `str.lower()` / `String.prototype.toLowerCase()` on the ASCII letters. */
  function Lower(s: string): (r: string)
    ensures |r| == |s|
    ensures forall i :: 0 <= i < |s| ==> !IsUpper(r[i])
    ensures forall i :: 0 <= i < |s| && !IsUpper(s[i]) ==> r[i] == s[i]
    ensures forall i :: 0 <= i < |s| && IsUpper(s[i]) ==> r[i] as int == s[i] as int + 32
  {
    seq(|s|, i requires 0 <= i < |s| => LowerChar(s[i]))
  }

  lemma LowerIdempotent(s: string)
    ensures Lower(Lower(s)) == Lower(s)
  {
  }

  lemma LowerAppend(a: string, b: string)
    ensures Lower(a + b) == Lower(a) + Lower(b)
  {
  }

  /** Drops the leading characters that satisfy `isSpace`. */
  function TrimStart(s: string, isSpace: char -> bool): string
    decreases |s|
  {
    if s != [] && isSpace(s[0]) then TrimStart(s[1..], isSpace) else s
  }

  /** What `TrimStart` leaves: a suffix, after a run of white space, that does
      not itself start with white space. */
  lemma {:induction false} TrimStartSuffix(s: string, isSpace: char -> bool)
    ensures var r := TrimStart(s, isSpace);
            && |r| <= |s| && r == s[|s| - |r|..]
            && (forall i :: 0 <= i < |s| - |r| ==> isSpace(s[i]))
            && (r != [] ==> !isSpace(r[0]))
    decreases |s|
  {
    if s != [] && isSpace(s[0]) {
      TrimStartSuffix(s[1..], isSpace);
    }
  }

  /** Drops the trailing characters that satisfy `isSpace`. */
  function TrimEnd(s: string, isSpace: char -> bool): string
    decreases |s|
  {
    if s != [] && isSpace(s[|s| - 1]) then TrimEnd(s[..|s| - 1], isSpace) else s
  }

  /** What `TrimEnd` leaves: a prefix, before a run of white space, that does
      not itself end with white space. */
  lemma {:induction false} TrimEndPrefix(s: string, isSpace: char -> bool)
    ensures var r := TrimEnd(s, isSpace);
            && |r| <= |s| && r == s[..|r|]
            && (forall i :: |r| <= i < |s| ==> isSpace(s[i]))
            && (r != [] ==> !isSpace(r[|r| - 1]))
    decreases |s|
  {
    if s != [] && isSpace(s[|s| - 1]) {
      TrimEndPrefix(s[..|s| - 1], isSpace);
    }
  }

  /** Both ends trimmed: the result is the slice of `s` between the first and
      the last character that is not white space. */
  function Strip(s: string, isSpace: char -> bool): (r: string)
    ensures exists i, j :: 0 <= i <= j <= |s| && r == s[i..j]
                           && (forall k :: 0 <= k < i ==> isSpace(s[k]))
                           && (forall k :: j <= k < |s| ==> isSpace(s[k]))
    ensures r != [] ==> !isSpace(r[0]) && !isSpace(r[|r| - 1])
  {
    var t := TrimStart(s, isSpace);
    var r := TrimEnd(t, isSpace);
    TrimStartSuffix(s, isSpace);
    TrimEndPrefix(t, isSpace);
    StripWitness(s, t, r, isSpace);
    r
  }

  /** A slice with only white space before and after it. */
  lemma BetweenSpaces(s: string, r: string, i: nat, j: nat, isSpace: char -> bool)
    requires i <= j <= |s| && r == s[i..j]
    requires forall k :: 0 <= k < i ==> isSpace(s[k])
    requires forall k :: j <= k < |s| ==> isSpace(s[k])
    ensures exists i, j :: 0 <= i <= j <= |s| && r == s[i..j]
                           && (forall k :: 0 <= k < i ==> isSpace(s[k]))
                           && (forall k :: j <= k < |s| ==> isSpace(s[k]))
  {
  }

  /** Trimming the front, then the back, leaves the slice of `s` from
      `|s| - |t|` to `|s| - |t| + |r|`, between two runs of white space. */
  lemma StripWitness(s: string, t: string, r: string, isSpace: char -> bool)
    requires |t| <= |s| && t == s[|s| - |t|..] && forall k :: 0 <= k < |s| - |t| ==> isSpace(s[k])
    requires |r| <= |t| && r == t[..|r|] && forall k :: |r| <= k < |t| ==> isSpace(t[k])
    requires t != [] ==> !isSpace(t[0])
    requires r != [] ==> !isSpace(r[|r| - 1])
    ensures exists i, j :: 0 <= i <= j <= |s| && r == s[i..j]
                           && (forall k :: 0 <= k < i ==> isSpace(s[k]))
                           && (forall k :: j <= k < |s| ==> isSpace(s[k]))
    ensures r != [] ==> !isSpace(r[0]) && !isSpace(r[|r| - 1])
  {
    if r != [] {
      assert r[0] == t[0];
    }
    var i := |s| - |t|;
    var j := i + |r|;
    assert r == s[i..j];
    forall k | j <= k < |s| ensures isSpace(s[k]) {
      assert s[k] == t[k - i];
    }
    BetweenSpaces(s, r, i, j, isSpace);
  }

  /** Stripping leaves nothing exactly when every character is white space. */
  lemma {:induction false} StripEmptyIff(s: string, isSpace: char -> bool)
    ensures Strip(s, isSpace) == [] <==> forall k :: 0 <= k < |s| ==> isSpace(s[k])
  {
    if Strip(s, isSpace) == [] {
      var t := TrimStart(s, isSpace);
      TrimStartSuffix(s, isSpace);
      TrimEndPrefix(t, isSpace);
      assert TrimEnd(t, isSpace) == [];
      assert t == [];
    } else {
      var r := Strip(s, isSpace);
      var i, j :| 0 <= i <= j <= |s| && r == s[i..j];
      assert s[i] == r[0];
    }
  }

  function DigitValue(c: char): int { c as int - '0' as int }

  function DigitChar(d: nat): (c: char)
    requires d < 10
    ensures IsDigit(c) && DigitValue(c) == d
  {
    ('0' as int + d) as char
  }

  /** Python's `int(s)` on a string of ASCII decimal digits (leading zeros allowed). */
  function ParseDigits(s: string): (n: int)
    ensures AllDigits(s) ==> 0 <= n
    decreases |s|
  {
    if s == [] then 0 else 10 * ParseDigits(s[..|s| - 1]) + DigitValue(s[|s| - 1])
  }

  /** Decimal notation of a natural number, as Python's `str` writes it. */
  function NatToString(n: nat): (r: string)
    ensures r != [] && AllDigits(r)
    ensures |r| > 1 ==> r[0] != '0'
  {
    if n < 10 then [DigitChar(n)] else NatToString(n / 10) + [DigitChar(n % 10)]
  }

  /** Reading back the decimal notation gives the number again. */
  lemma {:induction false} ParseNatToString(n: nat)
    ensures ParseDigits(NatToString(n)) == n
  {
    if n >= 10 {
      var r := NatToString(n);
      assert r[..|r| - 1] == NatToString(n / 10);
      ParseNatToString(n / 10);
    }
  }

  /** Leading zeros add nothing to the value: `int("03") == int("3")`. */
  lemma {:induction false} ParseDigitsLeadingZeros(zeros: string, s: string)
    requires forall i :: 0 <= i < |zeros| ==> zeros[i] == '0'
    ensures ParseDigits(zeros + s) == ParseDigits(s)
    decreases |zeros| + |s|
  {
    if s == [] {
      if zeros != [] {
        var init := zeros[..|zeros| - 1];
        assert zeros + s == init + zeros[|zeros| - 1..];
        assert (zeros + s)[..|zeros| - 1] == init;
        ParseDigitsLeadingZeros(init, []);
        assert init + [] == init;
      }
    } else {
      var t := zeros + s;
      assert t[..|t| - 1] == zeros + s[..|s| - 1];
      assert t[|t| - 1] == s[|s| - 1];
      ParseDigitsLeadingZeros(zeros, s[..|s| - 1]);
    }
  }

  /** Python's `str(i)` for an integer: a minus sign for a negative number,
      then the decimal digits of its magnitude, which read back as it. */
  function IntToString(i: int): (r: string)
    ensures r != []
    ensures i >= 0 ==> AllDigits(r) && ParseDigits(r) == i
    ensures i < 0 ==> r[0] == '-' && AllDigits(r[1..]) && ParseDigits(r[1..]) == -i
  {
    if i < 0 then
      var t := NatToString(-i);
      ParseNatToString(-i);
      assert ("-" + t)[1..] == t;
      "-" + t
    else
      ParseNatToString(i);
      NatToString(i)
  }

  /** `sub` occurs in `s` starting at position `i`. */
  predicate OccursAt(s: string, sub: string, i: nat) {
    i + |sub| <= |s| && s[i..i + |sub|] == sub
  }

  /** Python's `sub in s`, JavaScript's `s.includes(sub)`. */
  predicate Contains(s: string, sub: string) {
    exists i: nat | i <= |s| :: OccursAt(s, sub, i)
  }

  lemma ContainsWitness(a: string, sub: string, b: string)
    ensures Contains(a + sub + b, sub)
  {
    assert OccursAt(a + sub + b, sub, |a|);
  }

  /** An occurrence in `b` is an occurrence in `a + b`. */
  lemma ContainsSuffix(a: string, b: string, sub: string)
    requires Contains(b, sub)
    ensures Contains(a + b, sub)
  {
    var i: nat :| i <= |b| && OccursAt(b, sub, i);
    assert (a + b)[|a| + i..|a| + i + |sub|] == b[i..i + |sub|];
    assert OccursAt(a + b, sub, |a| + i);
  }

  /** Lower-casing keeps every occurrence of a lower-case word. */
  lemma LowerContains(s: string, sub: string)
    requires Lower(sub) == sub && sub != []
    ensures Contains(s, sub) ==> s != [] && Contains(Lower(s), sub)
  {
    if !Contains(s, sub) {
      return;
    }
    var i: nat :| i <= |s| && OccursAt(s, sub, i);
    var pre, post := s[..i], s[i + |sub|..];
    assert s == pre + sub + post;
    LowerAppend(pre + sub, post);
    LowerAppend(pre, sub);
    ContainsWitness(Lower(pre), sub, Lower(post));
  }

  /** No character of `s` is one of `{` or `}`. */
  predicate NoBraces(s: string) {
    '{' !in s && '}' !in s
  }

  /** Every occurrence of `key` replaced by `value`, scanning left to right. */
  function ReplaceAll(s: string, key: string, value: string): string
    requires key != []
    decreases |s|
  {
    if |s| < |key| then s
    else if s[..|key|] == key then value + ReplaceAll(s[|key|..], key, value)
    else [s[0]] + ReplaceAll(s[1..], key, value)
  }

  lemma {:induction false} ReplaceAllBraceFree(s: string, key: string, value: string)
    requires key != [] && key[0] == '{'
    requires NoBraces(s)
    ensures ReplaceAll(s, key, value) == s
    decreases |s|
  {
    if |s| >= |key| {
      assert s[..|key|][0] == s[0];
      ReplaceAllBraceFree(s[1..], key, value);
    }
  }

  /** A template whose only brace is one occurrence of the placeholder gets
      exactly that occurrence replaced. */
  lemma {:induction false} ReplaceAllSingle(pre: string, key: string, post: string, value: string)
    requires key != [] && key[0] == '{'
    requires NoBraces(pre) && NoBraces(post)
    ensures ReplaceAll(pre + key + post, key, value) == pre + value + post
    decreases |pre|
  {
    var s := pre + key + post;
    if pre == [] {
      assert s[..|key|] == key && s[|key|..] == post;
      ReplaceAllBraceFree(post, key, value);
    } else {
      assert pre[0] in pre;
      assert s[0] == pre[0] && s[..|key|][0] == pre[0];
      assert s[..|key|] != key;
      assert s[1..] == pre[1..] + key + post;
      assert NoBraces(pre[1..]) by {
        assert forall c :: c in pre[1..] ==> c in pre;
      }
      ReplaceAllSingle(pre[1..], key, post, value);
      assert ReplaceAll(s, key, value) == [pre[0]] + (pre[1..] + value + post);
      assert [pre[0]] + (pre[1..] + value + post) == pre + value + post;
    }
  }

  /** Python's `template.format(name=value)` for a template in which the only
      braces are those of the `{name}` fields. */
  function FormatField(template: string, name: string, value: string): (r: string)
    ensures NoBraces(template) ==> r == template
  {
    var key := "{" + name + "}";
    assert NoBraces(template) ==> ReplaceAll(template, key, value) == template by {
      if NoBraces(template) {
        ReplaceAllBraceFree(template, key, value);
      }
    }
    ReplaceAll(template, key, value)
  }
}
