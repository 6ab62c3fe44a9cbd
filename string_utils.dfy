/**
 * StringUtils: the term lexer that splits a line of a data file or journal
 * into `{`, `}`, `=`, comments and words, the decoder for quoted and escaped
 * values, and the quoting that is its inverse.
 *
 * Each operation is a method shaped like the source loop and proved equal to
 * a specification function; the lemmas further down state what those
 * functions mean.
 */
module StringUtils {
  import opened QtText

  /** The kinds of term NextTerm reports. */
  datatype Term = OpenStruct | CloseStruct | EqualsSign | Comment | EndOfLine | AttribOrValue | ValueOnly

  /** The outcomes of UnquoteTerm. */
  datatype ValueError = ValueOk | MissingQuote | UnfinishedEscape | UnquotedEscape

  /** One call of NextTerm: the term kind, the term text, and what is left of the line. */
  datatype Lexeme = Lexeme(kind: Term, text: string, rest: string)

  /** A term without the rest of its line. */
  datatype Token = Token(kind: Term, text: string)

  /** The result of UnquoteTerm: the error code and the destination string. */
  datatype Unquoted = Unquoted(error: ValueError, value: string)

  // ---------------------------------------------------------------------------
  // The lexer's view of a word: where quotes are open, where it stops, whether
  // it is VALUE_ONLY.
  // ---------------------------------------------------------------------------

  /** Characters that end a word when they occur outside quotes. */
  predicate IsStop(c: char)
  {
    c == '#' || c == '{' || c == '}' || c == '=' || IsSpace(c)
  }

  /** Characters that make a word VALUE_ONLY when they occur outside quotes. */
  predicate IsMarker(c: char)
  {
    c == '\\' || c == '.'
  }

  /**
   * Where the word scanner is before it looks at a position: outside quotes,
   * inside quotes, or on the character right after an escaping backslash
   * (which the scanner steps over without looking at it).
   */
  datatype QuoteState = Outside | Inside | Escaped

  /** The scanner state after position i. An escape needs a following character on the line. */
  function Advance(st: QuoteState, s: string, i: nat): QuoteState
    requires i < |s|
  {
    match st
    case Outside => if s[i] == '"' then Inside else Outside
    case Inside =>
      if s[i] == '"' then Outside
      else if s[i] == '\\' && i + 1 < |s| then Escaped
      else Inside
    case Escaped => Inside
  }

  /** The scanner state on reaching position i of a word that starts at position 0. */
  function StateAt(s: string, i: nat): QuoteState
    requires i <= |s|
    decreases i
  {
    if i == 0 then Outside else Advance(StateAt(s, i - 1), s, i - 1)
  }

  /** Position j ends the word: a stop character, seen outside quotes. */
  predicate StopAt(s: string, j: nat)
    requires j < |s|
  {
    StateAt(s, j) == Outside && IsStop(s[j])
  }

  /** Position j makes the word VALUE_ONLY: a marker, seen outside quotes. */
  predicate MarkAt(s: string, j: nat)
    requires j < |s|
  {
    StateAt(s, j) == Outside && IsMarker(s[j])
  }

  /** The first position at or after i that ends the word, or |s| when none does. */
  function FirstStop(s: string, i: nat): (e: nat)
    requires i <= |s|
    ensures i <= e <= |s|
    decreases |s| - i
  {
    if i == |s| then |s|
    else if StopAt(s, i) then i
    else FirstStop(s, i + 1)
  }

  /** No position before the first stop ends the word, and the first stop, when there is one, does. */
  lemma {:induction false} FirstStopSpec(s: string, i: nat)
    requires i <= |s|
    ensures forall j :: i <= j < FirstStop(s, i) ==> !StopAt(s, j)
    ensures FirstStop(s, i) < |s| ==> StopAt(s, FirstStop(s, i))
    decreases |s| - i
  {
    if i < |s| && !StopAt(s, i) {
      FirstStopSpec(s, i + 1);
    }
  }

  /** Whether some position before n makes the word VALUE_ONLY. */
  function Flagged(s: string, n: nat): bool
    requires n <= |s|
    decreases n
  {
    n > 0 && (Flagged(s, n - 1) || MarkAt(s, n - 1))
  }

  /** A word is VALUE_ONLY exactly when a marker occurs outside quotes before its end. */
  lemma {:induction false} FlaggedSpec(s: string, n: nat)
    requires n <= |s|
    ensures Flagged(s, n) <==> exists j :: 0 <= j < n && MarkAt(s, j)
    decreases n
  {
    if n > 0 {
      FlaggedSpec(s, n - 1);
      if Flagged(s, n - 1) {
        var j :| 0 <= j < n - 1 && MarkAt(s, j);
        assert 0 <= j < n && MarkAt(s, j);
      }
    }
  }

  /**
   * What NextTerm peels off a line: the line is trimmed; a blank line is the
   * end of the line; `{`, `}` and `=` are one-character terms; `#` takes the
   * rest of the line as a comment; anything else is a word running to its
   * first stop, VALUE_ONLY when an unquoted `\` or `.` occurs in it.
   */
  function Lex(line: string): Lexeme
  {
    var t := Trim(line);
    if t == [] then Lexeme(EndOfLine, [], [])
    else if t[0] == '{' then Lexeme(OpenStruct, t[..1], t[1..])
    else if t[0] == '}' then Lexeme(CloseStruct, t[..1], t[1..])
    else if t[0] == '=' then Lexeme(EqualsSign, t[..1], t[1..])
    else if t[0] == '#' then Lexeme(Comment, t, [])
    else
      var e := FirstStop(t, 0);
      Lexeme(if Flagged(t, e) then ValueOnly else AttribOrValue, t[..e], t[e..])
  }

  /**
   * NextTerm: takes one term off the front of the line. The source rewrites
   * its `line` argument in place; here the remaining line is returned as
   * `rest`. Words are scanned by ScanWord.
   */
  method NextTerm(line: string) returns (kind: Term, term: string, rest: string)
    ensures Lexeme(kind, term, rest) == Lex(line)
  {
    kind := EndOfLine;
    var used: nat := 0;
    var s := Trim(line);
    var ch := At(s, 0);
    if s != [] {
      if ch == '{' {
        used := used + 1;
        kind := OpenStruct;
      } else if ch == '}' {
        used := used + 1;
        kind := CloseStruct;
      } else if ch == '=' {
        used := used + 1;
        kind := EqualsSign;
      } else if ch == '#' {
        used := |s|;
        kind := Comment;
      } else {
        var valueOnly;
        used, valueOnly := ScanWord(s);
        kind := if valueOnly then ValueOnly else AttribOrValue;
      }
    }
    term := Left(s, used);
    rest := DropFront(s, used);
  }

  /**
   * The word loop of NextTerm: how far the word runs (one past the end of the
   * line when it runs to the end, after the second look at its last
   * character) and whether it is VALUE_ONLY.
   */
  method ScanWord(s: string) returns (used: nat, valueOnly: bool)
    requires s != []
    ensures used == FirstStop(s, 0) || (used == |s| + 1 && FirstStop(s, 0) == |s|)
    ensures valueOnly == Flagged(s, FirstStop(s, 0))
  {
    used := 0;
    var ch := s[0];
    var done := false;
    var inQuotes := false;
    valueOnly := false;
    while !done && used <= |s|
      invariant used <= |s| + 1
      invariant used < |s| ==> ch == s[used]
      invariant used <= |s| ==> StateAt(s, used) == if inQuotes then Inside else Outside
      invariant used == |s| ==> inQuotes || (!IsStop(ch) && (IsMarker(ch) ==> valueOnly))
      invariant used <= |s| ==> valueOnly == Flagged(s, used)
      invariant used == |s| + 1 ==> valueOnly == Flagged(s, |s|) && FirstStop(s, 0) == |s|
      invariant !done && used <= |s| ==> FirstStop(s, 0) == FirstStop(s, used)
      invariant done ==> used < |s| && FirstStop(s, 0) == used
      decreases |s| + 1 - used, !done
    {
      if used < |s| {
        ScanStep(s, used);
      }
      if inQuotes {
        if ch == '"' {
          inQuotes := false;
        } else if ch == '\\' && used + 1 < |s| {
          // The escaped character is stepped over unseen.
          ScanStep(s, used + 1);
          used := used + 1;
        }
        used := used + 1;
      } else {
        if IsStop(ch) {
          done := true;
        } else {
          if IsMarker(ch) {
            valueOnly := true;
          } else if ch == '"' {
            inQuotes := true;
          }
          used := used + 1;
        }
      }
      if used < |s| {
        ch := s[used];
      }
    }
  }

  /** One step of the word scanner, as the loop of NextTerm takes it. */
  lemma {:induction false} ScanStep(s: string, i: nat)
    requires i < |s|
    ensures StateAt(s, i + 1) == Advance(StateAt(s, i), s, i)
    ensures Flagged(s, i + 1) == (Flagged(s, i) || MarkAt(s, i))
    ensures !StopAt(s, i) ==> FirstStop(s, i) == FirstStop(s, i + 1)
  {
  }

  // ---------------------------------------------------------------------------
  // Decoding a value.
  // ---------------------------------------------------------------------------

  function Prepend(d: string, r: Unquoted): Unquoted
  {
    Unquoted(r.error, d + r.value)
  }

  /**
   * The decoding of t, inside or outside quotes. Outside quotes the value ends
   * at white space or the end, a quote opens a quoted span and a backslash is
   * an error. Inside, a quote closes the span, a backslash takes the next
   * character literally (and must have one), and the end is an error.
   */
  function UnquoteFrom(t: string, inQuotes: bool): Unquoted
    decreases |t|
  {
    if inQuotes then
      if t == [] then Unquoted(MissingQuote, [])
      else if t[0] == '"' then UnquoteFrom(t[1..], false)
      else if t[0] == '\\' then
        if |t| > 1 then Prepend([t[1]], UnquoteFrom(t[2..], true))
        else Unquoted(UnfinishedEscape, [])
      else Prepend([t[0]], UnquoteFrom(t[1..], true))
    else
      if t == [] || IsSpace(t[0]) then Unquoted(ValueOk, [])
      else if t[0] == '"' then UnquoteFrom(t[1..], true)
      else if t[0] == '\\' then Unquoted(UnquotedEscape, [])
      else Prepend([t[0]], UnquoteFrom(t[1..], false))
  }

  /**
   * What UnquoteTerm reports: the decoding of the term, with the destination
   * emptied when the term ended inside quotes or inside an escape. An
   * unquoted backslash keeps what was decoded before it.
   */
  function Unquote(t: string): Unquoted
  {
    var r := UnquoteFrom(t, false);
    if r.error == MissingQuote || r.error == UnfinishedEscape then Unquoted(r.error, []) else r
  }

  /**
   * UnquoteTerm, character by character. When the term ends inside quotes the
   * source reads the terminating '\0' and pushes it before the destination is
   * cleared; the loop does the same through At.
   */
  method UnquoteTerm(term: string) returns (err: ValueError, dest: string)
    ensures Unquoted(err, dest) == Unquote(term)
  {
    err := ValueOk;
    var done := false;
    var inQuotes := false;
    var ok := true;
    var pos: nat := 0;
    dest := [];
    while ok && !done
      invariant pos <= |term|
      invariant !ok ==> done
      invariant !done ==> err == ValueOk && UnquoteFrom(term, false) == Prepend(dest, UnquoteFrom(term[pos..], inQuotes))
      invariant done && ok ==> UnquoteFrom(term, false) == Unquoted(err, dest) && (err == ValueOk || err == UnquotedEscape)
      invariant !ok ==> UnquoteFrom(term, false).error == err && (err == MissingQuote || err == UnfinishedEscape)
      invariant pos == 0 ==> dest == [] && !inQuotes
      decreases |term| - pos, !done
    {
      if inQuotes {
        err, done, ok, pos, inQuotes, dest := QuotedStep(term, pos, dest);
      } else {
        err, done, inQuotes, dest := PlainStep(term, pos, dest);
      }
      if !done {
        pos := pos + 1;
      }
    }
    if !ok || pos <= 0 {
      dest := [];
    }
  }

  /**
   * One turn of UnquoteTerm's loop inside quotes, before pos moves on: a quote
   * closes the span, a backslash copies the next character (and fails on the
   * last one), anything else is copied. At the end of the term the source
   * reads the terminating '\0' and copies it before the caller clears the
   * destination; At does the same here.
   */
  method QuotedStep(term: string, pos: nat, dest: string)
    returns (err: ValueError, done: bool, ok: bool, pos': nat, inQuotes: bool, dest': string)
    requires pos <= |term|
    ensures !done ==> (ok && err == ValueOk && pos <= pos' < |term| &&
      Prepend(dest, UnquoteFrom(term[pos..], true)) == Prepend(dest', UnquoteFrom(term[pos' + 1..], inQuotes)))
    ensures done ==> (!ok && pos' == pos && UnquoteFrom(term[pos..], true).error == err &&
      (err == MissingQuote || err == UnfinishedEscape))
  {
    err := ValueOk;
    done := false;
    ok := true;
    pos' := pos;
    inQuotes := true;
    dest' := dest;
    if pos == |term| {
      done := true;
      ok := false;
      err := MissingQuote;
    }
    if At(term, pos) == '"' {
      inQuotes := false;
      assert term[pos..][1..] == term[pos + 1..];
    } else if At(term, pos) == '\\' {
      if pos + 1 < |term| {
        pos' := pos + 1;
        dest' := dest + [term[pos']];
        assert term[pos..][2..] == term[pos' + 1..];
      } else {
        done := true;
        ok := false;
        err := UnfinishedEscape;
      }
    } else {
      dest' := dest + [At(term, pos)];
      if pos < |term| {
        assert term[pos..][1..] == term[pos + 1..];
      }
    }
  }

  /**
   * One turn of UnquoteTerm's loop outside quotes, before pos moves on: white
   * space or the end finishes the value, a quote opens a span, a backslash is
   * an error, anything else is copied.
   */
  method PlainStep(term: string, pos: nat, dest: string)
    returns (err: ValueError, done: bool, inQuotes: bool, dest': string)
    requires pos <= |term|
    ensures !done ==> (err == ValueOk && pos < |term| &&
      Prepend(dest, UnquoteFrom(term[pos..], false)) == Prepend(dest', UnquoteFrom(term[pos + 1..], inQuotes)))
    ensures done ==> (Prepend(dest, UnquoteFrom(term[pos..], false)) == Unquoted(err, dest') && dest' == dest && !inQuotes &&
      (err == ValueOk || err == UnquotedEscape))
  {
    err := ValueOk;
    done := false;
    inQuotes := false;
    dest' := dest;
    if pos == |term| || IsSpace(At(term, pos)) {
      done := true;
    } else if At(term, pos) == '"' {
      inQuotes := true;
      assert term[pos..][1..] == term[pos + 1..];
    } else if At(term, pos) == '\\' {
      done := true;
      err := UnquotedEscape;
    } else {
      dest' := dest + [At(term, pos)];
      assert term[pos..][1..] == term[pos + 1..];
    }
  }

  // ---------------------------------------------------------------------------
  // Quoting a value.
  // ---------------------------------------------------------------------------

  /** A character that forces quoting: white space, a quote, a dot or a backslash. */
  predicate Quotable(c: char)
  {
    IsSpace(c) || c == '"' || c == '.' || c == '\\'
  }

  /** MustQuote: the term holds a character that forces quoting. */
  predicate MustQuote(term: string)
  {
    exists i :: 0 <= i < |term| && Quotable(term[i])
  }

  /** One character as it appears between quotes: `"` and `\` get a backslash. */
  function EscapeChar(c: char): string
  {
    if c == '"' then ['\\', '"'] else if c == '\\' then ['\\', '\\'] else [c]
  }

  function Escape(s: string): string
    decreases |s|
  {
    if s == [] then [] else EscapeChar(s[0]) + Escape(s[1..])
  }

  /** What QuoteTerm returns: the term unchanged, or quoted and escaped when asked to or when it must be. */
  function Quote(term: string, always: bool): string
  {
    if always || MustQuote(term) then ['"'] + Escape(term) + ['"'] else term
  }

  lemma {:induction false} EscapeSnoc(s: string, c: char)
    ensures Escape(s + [c]) == Escape(s) + EscapeChar(c)
    decreases |s|
  {
    if s == [] {
      assert Escape([c]) == EscapeChar(c) + Escape([]);
    } else {
      assert (s + [c])[1..] == s[1..] + [c];
      EscapeSnoc(s[1..], c);
    }
  }

  /** Appending the escaped form of the next character extends the quoted prefix by it. */
  lemma {:induction false} QuoteStep(term: string, count: nat, r: string, piece: string)
    requires count < |term| && r == ['"'] + Escape(term[..count]) && piece == EscapeChar(term[count])
    ensures r + piece == ['"'] + Escape(term[..count + 1])
  {
    EscapeSnoc(term[..count], term[count]);
    assert term[..count + 1] == term[..count] + [term[count]];
  }

  /** QuoteTerm, building the quoted string character by character. */
  method QuoteTerm(term: string, always: bool) returns (r: string)
    ensures r == Quote(term, always)
  {
    r := [];
    if always || MustQuote(term) {
      r := ['"'];
      for count := 0 to |term|
        invariant r == ['"'] + Escape(term[..count])
      {
        var piece;
        if term[count] == '"' {
          piece := ['\\', '"'];
        } else if term[count] == '\\' {
          piece := ['\\', '\\'];
        } else {
          piece := [term[count]];
        }
        QuoteStep(term, count, r, piece);
        r := r + piece;
      }
      assert term[..|term|] == term;
      r := r + ['"'];
    } else {
      r := term;
    }
  }

  // ---------------------------------------------------------------------------
  // What the lexer promises.
  // ---------------------------------------------------------------------------

  /** A term other than END_OF_LINE is never empty and leaves a strictly shorter line. */
  lemma {:induction false} LexShrinks(line: string)
    ensures Lex(line).kind != EndOfLine ==> Lex(line).text != [] && |Lex(line).rest| < |line|
    ensures Lex(line).kind == EndOfLine ==> Lex(line).text == [] && Lex(line).rest == []
  {
    var t := Trim(line);
    if t != [] && t[0] != '{' && t[0] != '}' && t[0] != '=' && t[0] != '#' {
      assert !StopAt(t, 0);
    }
  }

  /** A blank line, and only a blank line, gives END_OF_LINE, with an empty term and an empty rest. */
  lemma {:induction false} LexBlank(line: string)
    ensures Lex(line).kind == EndOfLine <==> forall i :: 0 <= i < |line| ==> IsSpace(line[i])
    ensures Lex(line).kind == EndOfLine ==> Lex(line).text == [] && Lex(line).rest == []
  {
    TrimEmptyIffBlank(line);
  }

  /** The term followed by the rest of the line is the trimmed line: nothing is lost or added. */
  lemma {:induction false} LexCovers(line: string)
    ensures Lex(line).text + Lex(line).rest == Trim(line)
  {
    var t := Trim(line);
    if t != [] && t[0] != '#' {
      var e := if t[0] == '{' || t[0] == '}' || t[0] == '=' then 1 else FirstStop(t, 0);
      assert t[..e] + t[e..] == t;
    }
  }

  /** `{`, `}` and `=` are one-character terms and `#` makes the whole rest of the line a comment. */
  lemma {:induction false} LexPunctuation(line: string)
    requires Trim(line) != []
    ensures Trim(line)[0] == '{' ==> Lex(line) == Lexeme(OpenStruct, "{", Trim(line)[1..])
    ensures Trim(line)[0] == '}' ==> Lex(line) == Lexeme(CloseStruct, "}", Trim(line)[1..])
    ensures Trim(line)[0] == '=' ==> Lex(line) == Lexeme(EqualsSign, "=", Trim(line)[1..])
    ensures Trim(line)[0] == '#' ==> Lex(line) == Lexeme(Comment, Trim(line), [])
  {
  }

  /**
   * A word runs up to, and not including, the first stop character seen
   * outside quotes; it is VALUE_ONLY exactly when a `\` or `.` occurs in it
   * outside quotes.
   */
  lemma {:induction false} LexWord(line: string)
    requires Lex(line).kind == AttribOrValue || Lex(line).kind == ValueOnly
    ensures var t, w := Trim(line), Lex(line).text;
      && w != [] && w == t[..|w|]
      && (forall j :: 0 <= j < |w| ==> !StopAt(t, j))
      && (|w| < |t| ==> StopAt(t, |w|))
      && (Lex(line).kind == ValueOnly <==> exists j :: 0 <= j < |w| && MarkAt(t, j))
  {
    LexShrinks(line);
    var t := Trim(line);
    FirstStopSpec(t, 0);
    FlaggedSpec(t, FirstStop(t, 0));
  }

  /** The scanner is never inside quotes before it has passed a quote character. */
  lemma {:induction false} QuotedNeedsQuote(s: string, j: nat)
    requires j <= |s| && StateAt(s, j) != Outside
    ensures exists k :: 0 <= k < j && s[k] == '"'
    decreases j
  {
    if StateAt(s, j - 1) != Outside {
      QuotedNeedsQuote(s, j - 1);
      var k :| 0 <= k < j - 1 && s[k] == '"';
      assert 0 <= k < j && s[k] == '"';
    } else {
      assert s[j - 1] == '"';
    }
  }

  /** In an ATTRIB_OR_VALUE word, every `.` and `\` lies after a quote. */
  lemma {:induction false} AttribMarkersAreQuoted(line: string, j: nat)
    requires Lex(line).kind == AttribOrValue
    requires j < |Lex(line).text| && IsMarker(Lex(line).text[j])
    ensures exists k :: 0 <= k < j && Lex(line).text[k] == '"'
  {
    var t := Trim(line);
    LexWord(line);
    var w := Lex(line).text;
    assert !MarkAt(t, j);
    QuotedNeedsQuote(t, j);
    var k :| 0 <= k < j && t[k] == '"';
    assert w[k] == t[k];
  }

  /** A character the scanner passes over outside quotes without any effect. */
  predicate Plain(c: char)
  {
    !IsStop(c) && c != '"' && !IsMarker(c)
  }

  lemma {:induction false} OutsideRun(x: string, off: nat, n: nat)
    requires off + n <= |x| && StateAt(x, off) == Outside
    requires forall j :: off <= j < off + n ==> Plain(x[j])
    ensures StateAt(x, off + n) == Outside
    ensures FirstStop(x, off) == FirstStop(x, off + n)
    ensures Flagged(x, off + n) == Flagged(x, off)
    decreases n
  {
    if n > 0 {
      ScanStep(x, off);
      OutsideRun(x, off + 1, n - 1);
    }
  }

  /** A dot before any quote or stop makes the word VALUE_ONLY, whatever follows. */
  lemma {:induction false} DotMakesValueOnly(line: string, j: nat)
    requires var t := Trim(line); j < |t| && t[j] == '.'
    requires forall k :: 0 <= k < j ==> Plain(Trim(line)[k])
    ensures Lex(line).kind == ValueOnly
  {
    var t := Trim(line);
    OutsideRun(t, 0, j);
    assert MarkAt(t, j);
    assert FirstStop(t, 0) > j;
    FlaggedSpec(t, FirstStop(t, 0));
  }

  /** An escaped string, entered inside quotes, leaves the scanner inside quotes and passes no stop or marker. */
  lemma {:induction false} EscapedRun(x: string, off: nat, s: string)
    requires off + |Escape(s)| < |x| && x[off..off + |Escape(s)|] == Escape(s)
    requires StateAt(x, off) == Inside
    ensures StateAt(x, off + |Escape(s)|) == Inside
    ensures FirstStop(x, off) == FirstStop(x, off + |Escape(s)|)
    ensures Flagged(x, off + |Escape(s)|) == Flagged(x, off)
    decreases |s|
  {
    if s != [] {
      var c := EscapeChar(s[0]);
      var tail := Escape(s[1..]);
      assert Escape(s) == c + tail;
      SliceSplit(x, off, c, tail);
      EscapedCharRun(x, off, s[0]);
      EscapedRun(x, off + |c|, s[1..]);
    }
  }

  /** One escaped character, entered inside quotes, leaves the scanner inside quotes and passes no stop or marker. */
  lemma {:induction false} EscapedCharRun(x: string, off: nat, ch: char)
    requires off + |EscapeChar(ch)| < |x| && x[off..off + |EscapeChar(ch)|] == EscapeChar(ch)
    requires StateAt(x, off) == Inside
    ensures StateAt(x, off + |EscapeChar(ch)|) == Inside
    ensures FirstStop(x, off) == FirstStop(x, off + |EscapeChar(ch)|)
    ensures Flagged(x, off + |EscapeChar(ch)|) == Flagged(x, off)
  {
    var c := EscapeChar(ch);
    assert x[off] == c[0];
    ScanStep(x, off);
    if |c| == 2 {
      assert x[off + 1] == c[1];
      ScanStep(x, off + 1);
    }
  }

  lemma {:induction false} SliceSplit(x: string, off: nat, a: string, b: string)
    requires off + |a| + |b| <= |x| && x[off..off + |a| + |b|] == a + b
    ensures x[off..off + |a|] == a
    ensures x[off + |a|..off + |a| + |b|] == b
  {
    assert x[off..off + |a|] == x[off..off + |a| + |b|][..|a|];
    assert x[off + |a|..off + |a| + |b|] == x[off..off + |a| + |b|][|a|..];
  }

  /**
   * A quoted term is one ATTRIB_OR_VALUE word: stop characters, dots and
   * backslashes inside the quotes neither end it nor make it VALUE_ONLY, and an
   * escaped quote does not close it.
   */
  lemma {:induction false} LexQuoted(s: string, rest: string)
    requires rest == [] || (IsStop(rest[0]) && !IsSpace(rest[|rest| - 1]))
    ensures var w := ['"'] + Escape(s) + ['"'];
      Lex(w + rest) == Lexeme(AttribOrValue, w, rest)
  {
    var w := ['"'] + Escape(s) + ['"'];
    var x := w + rest;
    TrimmedAlready(x);
    QuotedScan(s, x);
    if rest != [] {
      assert StopAt(x, |w|);
    }
    assert x[..|w|] == w && x[|w|..] == rest;
  }

  /** Scanning a quoted term leaves the scanner outside quotes right after it, having passed no stop or marker. */
  lemma {:induction false} QuotedScan(s: string, x: string)
    requires var w := ['"'] + Escape(s) + ['"']; |w| <= |x| && x[..|w|] == w
    ensures var n := |Escape(s)| + 2;
      && StateAt(x, n) == Outside && FirstStop(x, 0) == FirstStop(x, n) && !Flagged(x, n)
  {
    var e := Escape(s);
    QuotedParts(e, x);
    ScanStep(x, 0);
    EscapedRun(x, 1, s);
    ScanStep(x, 1 + |e|);
  }

  /** The three parts of a quoted term at the front of a line. */
  lemma {:induction false} QuotedParts(e: string, x: string)
    requires var w := ['"'] + e + ['"']; |w| <= |x| && x[..|w|] == w
    ensures x[0] == '"' && x[1..1 + |e|] == e && x[1 + |e|] == '"'
  {
    var w := ['"'] + e + ['"'];
    assert x[0] == x[..|w|][0];
    assert x[1..1 + |e|] == x[..|w|][1..1 + |e|];
    assert x[1 + |e|] == x[..|w|][1 + |e|];
  }

  /** A non-empty word of plain characters is one ATTRIB_OR_VALUE term. */
  lemma {:induction false} LexPlain(s: string, rest: string)
    requires s != [] && forall i :: 0 <= i < |s| ==> Plain(s[i])
    requires rest == [] || (IsStop(rest[0]) && !IsSpace(rest[|rest| - 1]))
    ensures Lex(s + rest) == Lexeme(AttribOrValue, s, rest)
  {
    var x := s + rest;
    TrimmedAlready(x);
    OutsideRun(x, 0, |s|);
    if rest != [] {
      assert StopAt(x, |s|);
    }
    assert x[..|s|] == s && x[|s|..] == rest;
  }

  /** A word of plain characters only: no stop, quote, dot or backslash. */
  predicate PlainWord(w: string)
  {
    w != [] && forall i :: 0 <= i < |w| ==> Plain(w[i])
  }

  /** A space before a term is skipped: what is left of a line after a term reads as the line itself. */
  lemma {:induction false} LeadingSpace(x: string)
    requires x != [] && !IsSpace(x[0]) && !IsSpace(x[|x| - 1])
    ensures Lex(" " + x) == Lex(x)
  {
    TrimPadded(" ", x, []);
    assert " " + x + [] == " " + x;
    TrimmedAlready(x);
    LexOfTrim(" " + x, x);
  }

  /** The lexer sees only the trimmed line. */
  lemma {:induction false} LexOfTrim(a: string, b: string)
    requires Trim(a) == Trim(b)
    ensures Lex(a) == Lex(b)
  {
  }

  /**
   * Quoting on demand does not protect `#`, `{`, `}` or `=`: "C#" is written
   * as it is, and reads back as the word "C" followed by a comment.
   */
  lemma {:induction false} QuoteLeavesStops()
    ensures Quote("C#", false) == "C#"
    ensures Lex("C#") == Lexeme(AttribOrValue, "C", "#")
  {
    var x := "C#";
    assert !Quotable(x[0]) && !Quotable(x[1]);
    assert !MustQuote(x);
    LexPlain("C", "#");
    assert "C" + "#" == x;
  }

  // ---------------------------------------------------------------------------
  // What the decoder promises.
  // ---------------------------------------------------------------------------

  /** A character copied as it is by the decoder, outside or (inQuotes) inside quotes. */
  predicate Copied(c: char, inQuotes: bool)
  {
    c != '"' && c != '\\' && (inQuotes || !IsSpace(c))
  }

  lemma {:induction false} UnquoteCopies(u: string, rest: string, inQuotes: bool)
    requires forall i :: 0 <= i < |u| ==> Copied(u[i], inQuotes)
    ensures UnquoteFrom(u + rest, inQuotes) == Prepend(u, UnquoteFrom(rest, inQuotes))
    decreases |u|
  {
    if u != [] {
      assert (u + rest)[1..] == u[1..] + rest;
      UnquoteCopies(u[1..], rest, inQuotes);
      assert [u[0]] + (u[1..] + UnquoteFrom(rest, inQuotes).value) == u + UnquoteFrom(rest, inQuotes).value;
    } else {
      assert u + rest == rest;
    }
  }

  /** Decoding stops with VALUE_OK at the first white space (or at the end) outside quotes. */
  lemma {:induction false} UnquoteStopsAtSpace(u: string, c: char, v: string)
    requires forall i :: 0 <= i < |u| ==> Copied(u[i], false)
    ensures Unquote(u) == Unquoted(ValueOk, u)
    ensures IsSpace(c) ==> Unquote(u + [c] + v) == Unquoted(ValueOk, u)
  {
    UnquoteCopies(u, [], false);
    assert u + [] == u;
    assert u + [c] + v == u + ([c] + v);
    UnquoteCopies(u, [c] + v, false);
  }

  /** A backslash outside quotes gives VALUE_UNQUOTED_ESCAPE, keeping what came before it. */
  lemma {:induction false} UnquoteUnquotedEscape(u: string, v: string)
    requires forall i :: 0 <= i < |u| ==> Copied(u[i], false)
    ensures Unquote(u + ['\\'] + v) == Unquoted(UnquotedEscape, u)
  {
    assert u + ['\\'] + v == u + (['\\'] + v);
    UnquoteCopies(u, ['\\'] + v, false);
  }

  /** A quote that is never closed gives VALUE_MISSING_QUOTE and an empty value. */
  lemma {:induction false} UnquoteMissingQuote(u: string, e: string)
    requires forall i :: 0 <= i < |u| ==> Copied(u[i], false)
    requires forall i :: 0 <= i < |e| ==> Copied(e[i], true)
    ensures Unquote(u + ['"'] + e) == Unquoted(MissingQuote, [])
  {
    assert u + ['"'] + e == u + (['"'] + e);
    UnquoteCopies(u, ['"'] + e, false);
    assert (['"'] + e)[1..] == e;
    assert e == e + [];
    UnquoteCopies(e, [], true);
  }

  /** A backslash that ends the term inside quotes gives VALUE_UNFINISHED_ESCAPE and an empty value. */
  lemma {:induction false} UnquoteUnfinishedEscape(u: string, e: string)
    requires forall i :: 0 <= i < |u| ==> Copied(u[i], false)
    requires forall i :: 0 <= i < |e| ==> Copied(e[i], true)
    ensures Unquote(u + ['"'] + e + ['\\']) == Unquoted(UnfinishedEscape, [])
  {
    assert u + ['"'] + e + ['\\'] == u + (['"'] + (e + ['\\']));
    UnquoteCopies(u, ['"'] + (e + ['\\']), false);
    assert (['"'] + (e + ['\\']))[1..] == e + ['\\'];
    UnquoteCopies(e, ['\\'], true);
  }

  lemma {:induction false} UnquoteEscapedChar(c: char, tail: string)
    ensures UnquoteFrom(EscapeChar(c) + tail, true) == Prepend([c], UnquoteFrom(tail, true))
  {
    var x := EscapeChar(c) + tail;
    if c == '"' || c == '\\' {
      assert x == ['\\', c] + tail;
      assert x[2..] == tail;
    } else {
      assert x == [c] + tail;
      assert x[1..] == tail;
    }
  }

  lemma {:induction false} UnquoteEscaped(s: string, rest: string)
    ensures UnquoteFrom(Escape(s) + rest, true) == Prepend(s, UnquoteFrom(rest, true))
    decreases |s|
  {
    if s == [] {
      assert Escape(s) + rest == rest;
    } else {
      var tail := Escape(s[1..]) + rest;
      assert Escape(s) + rest == EscapeChar(s[0]) + tail;
      UnquoteEscapedChar(s[0], tail);
      UnquoteEscaped(s[1..], rest);
      var r := UnquoteFrom(rest, true);
      assert [s[0]] + (s[1..] + r.value) == s + r.value;
    }
  }

  /** Decoding a quoted term gives back the original string with VALUE_OK. */
  lemma {:induction false} UnquoteQuote(s: string, always: bool)
    ensures Unquote(Quote(s, always)) == Unquoted(ValueOk, s)
  {
    if always || MustQuote(s) {
      var q := ['"'] + Escape(s) + ['"'];
      assert q[1..] == Escape(s) + ['"'];
      UnquoteEscaped(s, ['"']);
      assert UnquoteFrom(['"'], true) == Unquoted(ValueOk, []);
      assert s + [] == s;
    } else {
      forall i | 0 <= i < |s|
        ensures Copied(s[i], false)
      {
        assert !Quotable(s[i]);
      }
      UnquoteStopsAtSpace(s, ' ', []);
    }
  }
}
