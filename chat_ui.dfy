/** The pure helpers of the browser front end: the reason shown for a failed
    request, the message the send button submits, HTML escaping and the
    line-by-line rendering of a message, and the choice of the workout plan
    shown beside a bot reply. */
module ChatUi {
  import opened Text
  import opened ResponseTemplates
  import opened Chatbot
  import opened WorkoutPlans

  // ---------------------------------------------------------------------------
  // Failed requests

  const TooManyRequestsReason := "Too many requests. Please slow down."
  const ServerErrorReason := "Server error. Please try again."
  const FallbackReason := "Something went wrong"

  /** The fields of a failed response's JSON body that the page reads; a
      field that is absent (or not a string) is `None`. */
  datatype ErrorBody = ErrorBody(error: Option<string>, message: Option<string>)

  /** JavaScript truthiness of an optional string. */
  predicate Truthy(s: Option<string>) {
    s.Some? && s.value != []
  }

  /** `extractError(status, data)`: status 429 (Too Many Requests, section 4
      of RFC 6585) and the server errors get fixed reasons; otherwise the
      body's `error`, then its `message`, then a generic reason. */
  function ExtractError(status: int, data: Option<ErrorBody>): (reason: string)
    ensures reason != []
    ensures || reason in {TooManyRequestsReason, ServerErrorReason, FallbackReason}
            || (data.Some? && (Some(reason) == data.value.error || Some(reason) == data.value.message))
  {
    if status == 429 then TooManyRequestsReason
    else if status >= 500 then ServerErrorReason
    else if data.Some? && Truthy(data.value.error) then data.value.error.value
    else if data.Some? && Truthy(data.value.message) then data.value.message.value
    else FallbackReason
  }

  /** Rate limiting and server errors do not look at the body. */
  lemma ExtractErrorIgnoresBodyFor(status: int, data: Option<ErrorBody>, other: Option<ErrorBody>)
    requires status == 429 || status >= 500
    ensures ExtractError(status, data) == ExtractError(status, other)
    ensures ExtractError(status, data) == if status == 429 then TooManyRequestsReason else ServerErrorReason
  {
  }

  /** For any other status a non-empty `error` wins over `message`, and a body
      with neither gets the generic reason. */
  lemma ExtractErrorReadsBody(status: int, data: ErrorBody)
    requires status != 429 && status < 500
    ensures Truthy(data.error) ==> ExtractError(status, Some(data)) == data.error.value
    ensures !Truthy(data.error) && Truthy(data.message) ==> ExtractError(status, Some(data)) == data.message.value
    ensures !Truthy(data.error) && !Truthy(data.message) ==> ExtractError(status, Some(data)) == FallbackReason
    ensures ExtractError(status, None) == FallbackReason
  {
  }

  // ---------------------------------------------------------------------------
  // Sending

  /** `handleSendMessage`: the trimmed input, or nothing to send when the
      trimmed input is empty. */
  function MessageToSend(input: string): (message: Option<string>)
    ensures message.None? <==> forall k :: 0 <= k < |input| ==> IsJsSpace(input[k])
    ensures message.Some? ==> JsTrimmed(message.value)
    ensures message.Some? ==> exists i, j :: 0 <= i <= j <= |input| && message.value == input[i..j]
                                             && (forall k :: 0 <= k < i ==> IsJsSpace(input[k]))
                                             && (forall k :: j <= k < |input| ==> IsJsSpace(input[k]))
  {
    StrippedInput(input);
    var m := Strip(input, IsJsSpace);
    if m == [] then None else Some(m)
  }

  /** Non-empty, with no white space at either end. */
  predicate JsTrimmed(m: string) {
    m != [] && !IsJsSpace(m[0]) && !IsJsSpace(m[|m| - 1])
  }

  lemma StrippedInput(input: string)
    ensures Strip(input, IsJsSpace) == [] <==> forall k :: 0 <= k < |input| ==> IsJsSpace(input[k])
    ensures exists i, j :: 0 <= i <= j <= |input| && Strip(input, IsJsSpace) == input[i..j]
                           && (forall k :: 0 <= k < i ==> IsJsSpace(input[k]))
                           && (forall k :: j <= k < |input| ==> IsJsSpace(input[k]))
    ensures Strip(input, IsJsSpace) != [] ==> JsTrimmed(Strip(input, IsJsSpace))
  {
    StripEmptyIff(input, IsJsSpace);
  }

  // ---------------------------------------------------------------------------
  // HTML escaping

  predicate IsSpecial(c: char) {
    c == '&' || c == '<' || c == '>' || c == '"'
  }

  /** The entity written for a special character. */
  function Entity(c: char): (e: string)
    requires IsSpecial(c)
    ensures |e| >= 4 && e[0] == '&' && e[|e| - 1] == ';'
    ensures forall i :: 0 <= i < |e| ==> e[i] != '<' && e[i] != '>' && e[i] != '"'
  {
    if c == '&' then "&amp;"
    else if c == '<' then "&lt;"
    else if c == '>' then "&gt;"
    else "&quot;"
  }

  /** Each special character replaced by its entity, every other character
      kept. */
  function EscapeHtml(s: string): (r: string)
    ensures forall i :: 0 <= i < |r| ==> r[i] != '<' && r[i] != '>' && r[i] != '"'
    ensures (forall i :: 0 <= i < |s| ==> !IsSpecial(s[i])) ==> r == s
  {
    if s == [] then []
    else (if IsSpecial(s[0]) then Entity(s[0]) else [s[0]]) + EscapeHtml(s[1..])
  }

  /** `t` begins with `p`. */
  predicate HasPrefix(t: string, p: string) {
    |p| <= |t| && forall i :: 0 <= i < |p| ==> t[i] == p[i]
  }

  /** Reads the four entities back; every other character is kept. */
  function Unescape(t: string): string
    decreases |t|
  {
    if t == [] then []
    else if HasPrefix(t, "&amp;") then "&" + Unescape(t[5..])
    else if HasPrefix(t, "&lt;") then "<" + Unescape(t[4..])
    else if HasPrefix(t, "&gt;") then ">" + Unescape(t[4..])
    else if HasPrefix(t, "&quot;") then "\"" + Unescape(t[6..])
    else [t[0]] + Unescape(t[1..])
  }

  /** An entity reads back to its character. */
  lemma UnescapeEntity(c: char, rest: string)
    requires IsSpecial(c)
    ensures Unescape(Entity(c) + rest) == [c] + Unescape(rest)
  {
    var e := Entity(c);
    var t := e + rest;
    assert t[|e|..] == rest;
    assert t[0] == '&' && t[1] == e[1];
  }

  /** Any character other than `&` reads back as itself. */
  lemma UnescapePlain(c: char, rest: string)
    requires c != '&'
    ensures Unescape([c] + rest) == [c] + Unescape(rest)
  {
    var t := [c] + rest;
    assert t[0] == c && t[1..] == rest;
  }

  /** Escaping loses nothing: unescaping gives the text back. */
  lemma {:induction false} UnescapeEscape(s: string)
    ensures Unescape(EscapeHtml(s)) == s
  {
    if s != [] {
      var c, rest := s[0], EscapeHtml(s[1..]);
      UnescapeEscape(s[1..]);
      if IsSpecial(c) {
        assert EscapeHtml(s) == Entity(c) + rest;
        UnescapeEntity(c, rest);
      } else {
        assert EscapeHtml(s) == [c] + rest;
        UnescapePlain(c, rest);
      }
      assert s == [c] + s[1..];
    }
  }

  /** The number of special characters at the start of `s`. */
  function SpecialRun(s: string): (n: nat)
    ensures 0 <= n <= |s|
    ensures forall i :: 0 <= i < n ==> IsSpecial(s[i])
    ensures n < |s| ==> !IsSpecial(s[n])
  {
    if s != [] && IsSpecial(s[0]) then 1 + SpecialRun(s[1..]) else 0
  }

  /** What a failed lookup in the entity table turns into. */
  const Undefined := "undefined"

  lemma UndefinedIsPlain()
    ensures forall i :: 0 <= i < |Undefined| ==> !IsSpecial(Undefined[i])
  {
  }

  /** `escapeHtml` as written: `/[&<>"]+/g` matches a whole run of special
      characters and the run is looked up as one key, so a run of two or
      more has no entry and is replaced by the text `undefined`. Either way
      no `<`, `>` or `"` is left, and text without special characters is
      unchanged. */
  function EscapeHtmlAsWritten(s: string): (r: string)
    ensures forall i :: 0 <= i < |r| ==> r[i] != '<' && r[i] != '>' && r[i] != '"'
    ensures (forall i :: 0 <= i < |s| ==> !IsSpecial(s[i])) ==> r == s
    decreases |s|
  {
    if s == [] then []
    else if IsSpecial(s[0]) then
      var n := SpecialRun(s);
      var piece := if n == 1 then Entity(s[0]) else Undefined;
      UndefinedIsPlain();
      piece + EscapeHtmlAsWritten(s[n..])
    else [s[0]] + EscapeHtmlAsWritten(s[1..])
  }

  /** A run of special characters ended by the end of the text or by an
      ordinary character is exactly what `[&<>"]+` matches. */
  lemma {:induction false} SpecialRunOf(run: string, rest: string)
    requires forall i :: 0 <= i < |run| ==> IsSpecial(run[i])
    requires rest == [] || !IsSpecial(rest[0])
    ensures SpecialRun(run + rest) == |run|
    decreases |run|
  {
    if run == [] {
      assert run + rest == rest;
    } else {
      assert (run + rest)[1..] == run[1..] + rest;
      SpecialRunOf(run[1..], rest);
    }
  }

  /** As written, every whole run of two or more special characters becomes
      the text `undefined`, wherever it stands. */
  lemma EscapeAsWrittenRun(run: string, rest: string)
    requires |run| >= 2 && forall i :: 0 <= i < |run| ==> IsSpecial(run[i])
    requires rest == [] || !IsSpecial(rest[0])
    ensures EscapeHtmlAsWritten(run + rest) == Undefined + EscapeHtmlAsWritten(rest)
  {
    var s := run + rest;
    SpecialRunOf(run, rest);
    assert s[0] == run[0] && s[|run|..] == rest;
  }

  /** As written, a special character standing alone becomes its entity. */
  lemma EscapeAsWrittenSingle(c: char, rest: string)
    requires IsSpecial(c)
    requires rest == [] || !IsSpecial(rest[0])
    ensures EscapeHtmlAsWritten([c] + rest) == Entity(c) + EscapeHtmlAsWritten(rest)
  {
    SpecialRunOf([c], rest);
    assert ([c] + rest)[1..] == rest;
  }

  /** As written, an ordinary character is copied. */
  lemma EscapeAsWrittenPlain(c: char, rest: string)
    requires !IsSpecial(c)
    ensures EscapeHtmlAsWritten([c] + rest) == [c] + EscapeHtmlAsWritten(rest)
  {
    assert ([c] + rest)[1..] == rest;
  }

  /** No two special characters are adjacent. */
  predicate Isolated(s: string) {
    forall i :: 0 <= i < |s| - 1 ==> !(IsSpecial(s[i]) && IsSpecial(s[i + 1]))
  }

  /** Where no two special characters are adjacent the code as written
      escapes correctly. */
  lemma {:induction false} EscapeAsWrittenIsolated(s: string)
    requires Isolated(s)
    ensures EscapeHtmlAsWritten(s) == EscapeHtml(s)
    decreases |s|
  {
    if s != [] {
      if IsSpecial(s[0]) && |s| > 1 {
        assert !IsSpecial(s[1]);
      }
      EscapeAsWrittenIsolated(s[1..]);
    }
  }

  /** Two different texts, `<<` and `&&`, are both shown as `undefined`: the
      characters are lost rather than escaped. */
  lemma EscapeAsWrittenLosesRuns()
    ensures EscapeHtmlAsWritten(['<', '<']) == Undefined
    ensures EscapeHtmlAsWritten(['&', '&']) == Undefined
    ensures Unescape(EscapeHtmlAsWritten(['<', '<'])) != ['<', '<']
  {
    var a, b := ['<', '<'], ['&', '&'];
    assert SpecialRun(a[2..]) == 0 && SpecialRun(a[1..]) == 1 && SpecialRun(a) == 2;
    assert SpecialRun(b[2..]) == 0 && SpecialRun(b[1..]) == 1 && SpecialRun(b) == 2;
    assert a[2..] == [] && b[2..] == [];
    var u := Undefined;
    assert u[0] == 'u';
    assert Unescape(u)[0] == 'u';
  }

  // ---------------------------------------------------------------------------
  // Rendering a message line by line

  /** `s.split(sep)`. */
  function Split(s: string, sep: char): (lines: seq<string>)
    ensures |lines| >= 1
    ensures forall i :: 0 <= i < |lines| ==> sep !in lines[i]
  {
    if s == [] then [[]]
    else
      var rest := Split(s[1..], sep);
      if s[0] == sep then [[]] + rest
      else [[s[0]] + rest[0]] + rest[1..]
  }

  /** There is one line more than there are separators. */
  lemma {:induction false} SplitCount(s: string, sep: char)
    ensures |Split(s, sep)| == multiset(s)[sep] + 1
  {
    if s != [] {
      SplitCount(s[1..], sep);
      assert s == [s[0]] + s[1..];
    }
  }

  /** `lines.join(sep)`. */
  function Join(lines: seq<string>, sep: char): string
    requires |lines| >= 1
  {
    if |lines| == 1 then lines[0] else lines[0] + [sep] + Join(lines[1..], sep)
  }

  /** Joining after putting a character in front of the first line puts it
      in front of the joined text. */
  lemma JoinCons(c: char, lines: seq<string>, sep: char)
    requires |lines| >= 1
    ensures Join([[c] + lines[0]] + lines[1..], sep) == [c] + Join(lines, sep)
  {
    var ls := [[c] + lines[0]] + lines[1..];
    if |lines| > 1 {
      assert ls[1..] == lines[1..];
    }
  }

  /** Splitting and joining again gives the text back. */
  lemma {:induction false} JoinSplit(s: string, sep: char)
    ensures Join(Split(s, sep), sep) == s
  {
    if s != [] {
      var c, t := s[0], s[1..];
      var rest := Split(t, sep);
      JoinSplit(t, sep);
      if c == sep {
        assert Split(s, sep) == [[]] + rest;
        assert ([[]] + rest)[1..] == rest;
      } else {
        assert Split(s, sep) == [[c] + rest[0]] + rest[1..];
        JoinCons(c, rest, sep);
      }
      assert s == [c] + t;
    }
  }

  /** A first line without separators stays whole in front of whatever
      follows it. */
  lemma {:induction false} SplitPrefix(a: string, t: string, sep: char)
    requires sep !in a
    ensures Split(a + t, sep) == [a + Split(t, sep)[0]] + Split(t, sep)[1..]
    decreases |a|
  {
    var lines := Split(t, sep);
    if a == [] {
      assert a + t == t && a + lines[0] == lines[0];
      assert [lines[0]] + lines[1..] == lines;
    } else {
      var c := a[0];
      assert c in a;
      assert (a + t)[0] == c && (a + t)[1..] == a[1..] + t;
      assert sep !in a[1..] by {
        assert forall x :: x in a[1..] ==> x in a;
      }
      SplitPrefix(a[1..], t, sep);
      var inner := Split(a[1..] + t, sep);
      assert inner == [a[1..] + lines[0]] + lines[1..];
      assert Split(a + t, sep) == [[c] + inner[0]] + inner[1..];
      assert inner[1..] == lines[1..];
      assert [c] + (a[1..] + lines[0]) == a + lines[0];
    }
  }

  /** Joining lines that contain no separator and splitting again gives the
      lines back. */
  lemma {:induction false} SplitJoin(lines: seq<string>, sep: char)
    requires |lines| >= 1 && forall i :: 0 <= i < |lines| ==> sep !in lines[i]
    ensures Split(Join(lines, sep), sep) == lines
    decreases |lines|
  {
    if |lines| == 1 {
      SplitPrefix(lines[0], [], sep);
      assert lines[0] + [] == lines[0];
    } else {
      var rest := Join(lines[1..], sep);
      SplitJoin(lines[1..], sep);
      SplitPrefix(lines[0], [sep] + rest, sep);
      assert ([sep] + rest)[1..] == rest;
      var tail := Split([sep] + rest, sep);
      assert tail == [[]] + lines[1..];
      assert tail[0] == [] && tail[1..] == lines[1..];
      assert Join(lines, sep) == lines[0] + ([sep] + rest);
      assert lines[0] + tail[0] == lines[0];
      assert lines == [lines[0]] + lines[1..];
    }
  }

  const DivOpen := "<div>"
  const DivClose := "</div>"

  /** One line of a message, escaped by `escape` and wrapped in a `div`. */
  function DivOf(line: string, escape: string -> string): string {
    DivOpen + escape(line) + DivClose
  }

  /** The lines, each wrapped in its own `div`, concatenated. */
  function Divs(lines: seq<string>, escape: string -> string): string
    decreases |lines|
  {
    if lines == [] then [] else DivOf(lines[0], escape) + Divs(lines[1..], escape)
  }

  /** Reads a sequence of `div` elements with text content back into their
      contents; `None` for anything else. */
  function ParseDivs(html: string): Option<seq<string>>
    decreases |html|
  {
    if html == [] then Some([])
    else if |html| < |DivOpen| || html[..|DivOpen|] != DivOpen then None
    else
      var body := html[|DivOpen|..];
      var k := TextEnd(body, 0);
      if |body| - k < |DivClose| || body[k..k + |DivClose|] != DivClose then None
      else match ParseDivs(body[k + |DivClose|..])
        case None => None
        case Some(rest) => Some([body[..k]] + rest)
  }

  /** The position of the first `<` at or after `i`, or the end. */
  function TextEnd(s: string, i: nat): (k: nat)
    requires i <= |s|
    ensures i <= k <= |s| && (k < |s| ==> s[k] == '<')
    ensures forall j :: i <= j < k ==> s[j] != '<'
    decreases |s| - i
  {
    if i == |s| || s[i] == '<' then i else TextEnd(s, i + 1)
  }

  /** One `div` whose text has no `<` is read off the front. */
  lemma ParseDivsCons(text: string, rest: string)
    requires forall i :: 0 <= i < |text| ==> text[i] != '<'
    ensures ParseDivs(DivOpen + text + DivClose + rest)
            == match ParseDivs(rest)
               case None => None
               case Some(texts) => Some([text] + texts)
  {
    var html := DivOpen + text + DivClose + rest;
    assert html[..|DivOpen|] == DivOpen;
    var body := html[|DivOpen|..];
    assert body == text + DivClose + rest;
    var k := TextEnd(body, 0);
    assert body[|text|] == '<';
    assert forall j :: 0 <= j < |text| ==> body[j] == text[j];
    assert k == |text|;
    assert body[..k] == text;
    assert body[k..k + |DivClose|] == DivClose;
    assert body[k + |DivClose|..] == rest;
  }

  /** Every line escaped. */
  function EscapeAll(lines: seq<string>, escape: string -> string): (escaped: seq<string>)
    ensures |escaped| == |lines|
    ensures forall i :: 0 <= i < |lines| ==> escaped[i] == escape(lines[i])
  {
    if lines == [] then [] else [escape(lines[0])] + EscapeAll(lines[1..], escape)
  }

  /** When no escaped line contains `<`, the `div`s read back to the escaped
      lines, one per line. */
  lemma {:induction false} ParseDivsOfDivs(lines: seq<string>, escape: string -> string)
    requires forall i :: 0 <= i < |lines| ==> '<' !in escape(lines[i])
    ensures ParseDivs(Divs(lines, escape)) == Some(EscapeAll(lines, escape))
    decreases |lines|
  {
    if lines != [] {
      var tail := lines[1..];
      var text := escape(lines[0]);
      assert '<' !in text;
      assert forall i :: 0 <= i < |tail| ==> tail[i] == lines[i + 1];
      ParseDivsOfDivs(tail, escape);
      ParseDivsCons(text, Divs(tail, escape));
      assert Divs(lines, escape) == DivOpen + text + DivClose + Divs(tail, escape);
    }
  }

  /** The inner HTML `addMessage` builds for a message, escaping each line
      with `escapeHtml` as written: its markup reads back as one `div` per
      line holding that line's escaping. */
  function RenderMessage(content: string): (html: string)
    ensures ParseDivs(html) == Some(EscapeAll(Split(content, '\n'), EscapeHtmlAsWritten))
  {
    var lines := Split(content, '\n');
    ParseDivsOfDivs(lines, EscapeHtmlAsWritten);
    Divs(lines, EscapeHtmlAsWritten)
  }

  /** Every rendered message has one `div` per line, one more than the
      number of line breaks, each holding its line escaped as written. */
  lemma RenderMessageDivs(content: string)
    ensures ParseDivs(RenderMessage(content)).Some?
    ensures var divs := ParseDivs(RenderMessage(content)).value;
            && |divs| == multiset(content)['\n'] + 1
            && forall i :: 0 <= i < |divs| ==> divs[i] == EscapeHtmlAsWritten(Split(content, '\n')[i])
  {
    SplitCount(content, '\n');
  }

  /** A rendered message whose lines have no two adjacent special characters
      reads back, line by line, to the message itself. */
  lemma RenderMessageRoundTrip(content: string)
    requires forall i :: 0 <= i < |Split(content, '\n')| ==> Isolated(Split(content, '\n')[i])
    ensures var divs := ParseDivs(RenderMessage(content)).value;
            Join(seq(|divs|, i requires 0 <= i < |divs| => Unescape(divs[i])), '\n') == content
  {
    var lines := Split(content, '\n');
    var divs := ParseDivs(RenderMessage(content)).value;
    assert divs == EscapeAll(lines, EscapeHtmlAsWritten);
    forall i | 0 <= i < |lines| ensures Unescape(divs[i]) == lines[i] {
      EscapeAsWrittenIsolated(lines[i]);
      UnescapeEscape(lines[i]);
    }
    assert seq(|divs|, i requires 0 <= i < |divs| => Unescape(divs[i])) == lines;
    JoinSplit(content, '\n');
  }

  /** As written, the message `<<` is rendered as the text `undefined`. */
  lemma RenderMessageLosesRuns()
    ensures RenderMessage(['<', '<']) == DivOpen + Undefined + DivClose
  {
    var one, m := ['<'], ['<', '<'];
    assert one[1..] == [] && m[1..] == one;
    assert Split(one[1..], '\n') == [[]];
    assert [one[0]] + [] == one;
    assert Split(one, '\n') == [one];
    assert [m[0]] + one == m;
    assert Split(m, '\n') == [m];
    EscapeAsWrittenLosesRuns();
  }

  /** The corrected rendering, escaping every special character with its own
      entity: every message reads back to itself. */
  function CorrectedRenderMessage(content: string): (html: string)
    ensures ParseDivs(html).Some?
    ensures var divs := ParseDivs(html).value;
            && |divs| == multiset(content)['\n'] + 1
            && Join(seq(|divs|, i requires 0 <= i < |divs| => Unescape(divs[i])), '\n') == content
  {
    var lines := Split(content, '\n');
    ParseDivsOfDivs(lines, EscapeHtml);
    var divs := EscapeAll(lines, EscapeHtml);
    assert forall i :: 0 <= i < |lines| ==> Unescape(divs[i]) == lines[i] by {
      forall i | 0 <= i < |lines| ensures Unescape(divs[i]) == lines[i] {
        UnescapeEscape(lines[i]);
      }
    }
    assert seq(|divs|, i requires 0 <= i < |divs| => Unescape(divs[i])) == lines;
    JoinSplit(content, '\n');
    SplitCount(content, '\n');
    Divs(lines, EscapeHtml)
  }

  // ---------------------------------------------------------------------------
  // The workout plan shown beside a reply

  /** JavaScript's `\w`. */
  predicate IsWordChar(c: char) {
    ('a' <= c <= 'z') || ('A' <= c <= 'Z') || ('0' <= c <= '9') || c == '_'
  }

  /** `c` at position `i` of `s` matches `\bc\b`. */
  predicate StandaloneAt(s: string, i: int, c: char) {
    && 0 <= i < |s| && s[i] == c
    && (i == 0 || !IsWordChar(s[i - 1]))
    && (i + 1 == |s| || !IsWordChar(s[i + 1]))
  }

  /** `/\bc\b/.test(s)` for a word character `c`: only a text holding `c`
      can match, and `c` on its own does. `StandaloneInside` says when an
      occurrence inside a longer text counts. */
  predicate HasStandalone(s: string, c: char): (b: bool)
    ensures b ==> c in s
    ensures s == [c] ==> b
  {
    assert s == [c] ==> StandaloneAt(s, 0, c);
    exists i :: 0 <= i < |s| && StandaloneAt(s, i, c)
  }

  /** A reply that mentions a workout: `workout` in any letter case, so in
      particular any text holding the lower-case word. */
  predicate MentionsWorkout(text: string): (m: bool)
    ensures Contains(text, "workout") ==> m
  {
    assert Lower("workout") == "workout";
    LowerContains(text, "workout");
    text != [] && Contains(Lower(text), "workout")
  }


  /** The day count `maybeShowWorkout` picks as written: nothing unless the
      reply mentions a workout, then a standalone 3 before a standalone 4
      before a standalone 5 wherever they appear, else 7. Its ensures list
      that priority case by case; `BreakdownShowsThreeDayPlan` and
      `LongerRepliesShowThreeDayPlan` prove what it makes of the chatbot's
      own replies. */
  function PlanDaysAsWritten(text: string): (days: Option<int>)
    ensures days.None? <==> !MentionsWorkout(text)
    ensures days.Some? ==> HasPlan(days.value) && |GetWorkoutPlan(days.value)| == days.value
    ensures days.Some? && HasStandalone(text, '3') ==> days.value == 3
    ensures days.Some? && !HasStandalone(text, '3') && HasStandalone(text, '4') ==> days.value == 4
    ensures days.Some? && !HasStandalone(text, '3') && !HasStandalone(text, '4') && HasStandalone(text, '5') ==>
              days.value == 5
    ensures days.Some? && !HasStandalone(text, '3') && !HasStandalone(text, '4') && !HasStandalone(text, '5') ==>
              days.value == 7
  {
    if !MentionsWorkout(text) then None
    else if HasStandalone(text, '3') then Some(3)
    else if HasStandalone(text, '4') then Some(4)
    else if HasStandalone(text, '5') then Some(5)
    else Some(7)
  }

  /** A standalone 3, 4 or 5 at position `i`. */
  predicate DayDigitAt(s: string, i: int) {
    0 <= i < |s| && (s[i] == '3' || s[i] == '4' || s[i] == '5') && StandaloneAt(s, i, s[i])
  }

  /** The first standalone 3, 4 or 5 at or after position `i`. */
  function FirstDayDigit(s: string, i: nat): (r: Option<char>)
    requires i <= |s|
    ensures r.Some? ==> exists j :: i <= j < |s| && DayDigitAt(s, j) && s[j] == r.value
                                    && forall k :: i <= k < j ==> !DayDigitAt(s, k)
    ensures r.None? ==> forall k :: i <= k < |s| ==> !DayDigitAt(s, k)
    decreases |s| - i
  {
    if i == |s| then None
    else if DayDigitAt(s, i) then Some(s[i])
    else FirstDayDigit(s, i + 1)
  }

  /** The day count the reply asks for: the first standalone 3, 4 or 5 in
      reading order, else 7. */
  function PlanDays(text: string): (days: Option<int>)
    ensures days.None? <==> !MentionsWorkout(text)
    ensures days.Some? ==> HasPlan(days.value) && |GetWorkoutPlan(days.value)| == days.value
  {
    if !MentionsWorkout(text) then None
    else match FirstDayDigit(text, 0)
      case Some(c) => Some(DigitValue(c))
      case None => Some(7)
  }

  /** The first standalone 3, 4 or 5 decides. */
  lemma {:induction false} PlanDaysFirstDigit(text: string, j: nat)
    requires MentionsWorkout(text)
    requires DayDigitAt(text, j) && forall k :: 0 <= k < j ==> !DayDigitAt(text, k)
    ensures PlanDays(text) == Some(DigitValue(text[j]))
  {
    var r := FirstDayDigit(text, 0);
    assert r.Some?;
    var m :| 0 <= m < |text| && DayDigitAt(text, m) && text[m] == r.value
             && forall k :: 0 <= k < m ==> !DayDigitAt(text, k);
    assert m == j;
  }

  // ---------------------------------------------------------------------------
  // Which plan a workout reply brings up

  /** Every workout reply mentions a workout. */
  lemma WorkoutReplyMentionsWorkout(days: int)
    ensures MentionsWorkout(WorkoutReply(days))
  {
    Regroup(WorkoutTemplateHead + IntToString(days), "-day ", "workout", WorkoutTemplateRest, Elaboration(days));
    WorkoutAnywhere(WorkoutTemplateHead + IntToString(days) + "-day ", WorkoutTemplateRest + Elaboration(days));
  }

  /** One regrouping of a five-part concatenation. It is a lemma of its own
      because asserting it inside `WorkoutReplyMentionsWorkout` makes that
      proof too costly for the solver. */
  lemma Regroup(a: string, b: string, c: string, d: string, e: string)
    ensures a + (b + c + d) + e == (a + b) + c + (d + e)
  {
  }

  /** The word `workout` anywhere in a text is a mention of a workout. */
  lemma WorkoutAnywhere(before: string, after: string)
    ensures MentionsWorkout(before + "workout" + after)
  {
    LowerAppend(before + "workout", after);
    LowerAppend(before, "workout");
    assert Lower("workout") == "workout";
    ContainsWitness(Lower(before), "workout", Lower(after));
  }

  /** A character inside an occurrence of `sub`, between two characters
      that are not word characters, is standalone. */
  lemma StandaloneInside(s: string, sub: string, j: nat)
    requires Contains(s, sub) && 0 < j < |sub| - 1
    requires !IsWordChar(sub[j - 1]) && !IsWordChar(sub[j + 1])
    ensures HasStandalone(s, sub[j])
  {
    var i: nat :| i <= |s| && OccursAt(s, sub, i);
    assert s[i + j] == sub[j] && s[i + j - 1] == sub[j - 1] && s[i + j + 1] == sub[j + 1];
    assert StandaloneAt(s, i + j, sub[j]);
  }

  /** The numbered line of day three makes a standalone `3` after any text. */
  lemma DayThreeLine(prefix: string, foci: seq<string>)
    requires |foci| >= 3
    ensures HasStandalone(prefix + Breakdown(foci), '3')
  {
    var sub := "\n" + DayLine(3, foci[2]);
    DayLinesMention(foci, 1, 2);
    assert NatToString(3) == "3";
    assert sub[4] == ' ' && sub[5] == '3' && sub[6] == ':';
    ContainsSuffix("\n", DayLines(foci, 1), sub);
    ContainsSuffix(prefix, Breakdown(foci), sub);
    StandaloneInside(prefix + Breakdown(foci), sub, 5);
  }

  /** A digit right after a text without digits that ends in a space, and
      followed by `-`, is the first standalone digit. */
  lemma LeadingDigit(head: string, d: char, tail: string, more: string)
    requires head != [] && head[|head| - 1] == ' ' && forall k :: 0 <= k < |head| ==> !IsDigit(head[k])
    requires d == '3' || d == '4' || d == '5'
    requires tail != [] && tail[0] == '-'
    ensures DayDigitAt(head + [d] + tail + more, |head|)
    ensures forall k :: 0 <= k < |head| ==> !DayDigitAt(head + [d] + tail + more, k)
  {
    var s := head + [d] + tail + more;
    assert s[|head|] == d && s[|head| - 1] == ' ' && s[|head| + 1] == '-';
    forall k | 0 <= k < |head| ensures !DayDigitAt(s, k) {
      assert s[k] == head[k];
    }
  }

  /** The workout template's text around the placeholder: a space before it,
      a dash after it, and no digit in front of it. */
  lemma WorkoutTemplateAround()
    ensures WorkoutTemplateHead != [] && WorkoutTemplateHead[|WorkoutTemplateHead| - 1] == ' '
    ensures forall k :: 0 <= k < |WorkoutTemplateHead| ==> !IsDigit(WorkoutTemplateHead[k])
    ensures WorkoutTemplateTail != [] && WorkoutTemplateTail[0] == '-'
  {
  }

  /** The reply to a request for 3, 4 or 5 days starts with the day count as
      its first standalone digit. */
  lemma ReplyLeadsWithDays(days: int)
    requires days == 3 || days == 4 || days == 5
    ensures var s := WorkoutReply(days);
            && DayDigitAt(s, |WorkoutTemplateHead|)
            && DigitValue(s[|WorkoutTemplateHead|]) == days
            && forall k :: 0 <= k < |WorkoutTemplateHead| ==> !DayDigitAt(s, k)
  {
    assert IntToString(days) == [DigitChar(days)];
    WorkoutTemplateAround();
    LeadingDigit(WorkoutTemplateHead, DigitChar(days), WorkoutTemplateTail, Elaboration(days));
  }

  /** As written, the replies to four- and five-day requests bring up the
      three-day plan: their `Day 3` line wins over the requested count. */
  lemma LongerRepliesShowThreeDayPlan()
    ensures PlanDaysAsWritten(WorkoutReply(4)) == Some(3)
    ensures PlanDaysAsWritten(WorkoutReply(5)) == Some(3)
  {
    BreakdownShowsThreeDayPlan(4, FourDaySplit);
    BreakdownShowsThreeDayPlan(5, FiveDaySplit);
  }

  /** As written, any reply whose breakdown reaches a third day brings up
      the three-day plan. */
  lemma BreakdownShowsThreeDayPlan(days: int, foci: seq<string>)
    requires |foci| >= 3 && Elaboration(days) == Breakdown(foci)
    ensures PlanDaysAsWritten(WorkoutReply(days)) == Some(3)
  {
    WorkoutReplyMentionsWorkout(days);
    DayThreeLine(WorkoutTemplateHead + IntToString(days) + WorkoutTemplateTail, foci);
  }

  /** Reading the first standalone day count brings up the plan that was
      asked for. */
  lemma RepliesShowRequestedPlan(days: int)
    requires days == 3 || days == 4 || days == 5
    ensures PlanDays(WorkoutReply(days)) == Some(days)
    ensures |GetWorkoutPlan(days)| == days
  {
    WorkoutReplyMentionsWorkout(days);
    ReplyLeadsWithDays(days);
    PlanDaysFirstDigit(WorkoutReply(days), |WorkoutTemplateHead|);
  }
}
