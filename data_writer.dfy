/**
 * The document writer: a tree is written as indented `name = value` lines,
 * a struct as `name = {`, its own lines one level deeper, and `}`, between
 * a leading and a trailing comment. The output file is the text appended to
 * a stream.
 */
module Writing {
  import opened QtText
  import opened Ordering
  import opened Deduplication
  import opened Hierarchy
  import opened StringUtils
  import opened Reading

  /** DEFAULT_INDENT: spaces per level of depth. */
  const DEFAULT_INDENT: nat := 4

  /** A run of n spaces. */
  function Spaces(n: nat): (r: string)
    ensures |r| == n
    ensures forall i :: 0 <= i < |r| ==> r[i] == ' '
  {
    seq(n, i => ' ')
  }

  /** The first line of the leading comment. */
  const PROCESSED_LINE := "# Processed by ApplyJournal:"
  /** The start of the second line of the leading comment, before the time the tree was read. */
  const PREVIOUS_PREFIX := "# Previous version read at "
  /** The start of the trailing comment's line, before the time of writing. */
  const WRITTEN_PREFIX := "# New version written at "

  /** None of the comment texts holds a line break. */
  lemma {:induction false} CommentTextsOneLine()
    ensures '\n' !in PROCESSED_LINE && '\n' !in PREVIOUS_PREFIX && '\n' !in WRITTEN_PREFIX
  {
    OneLine(PROCESSED_LINE);
    OneLine(PREVIOUS_PREFIX);
    OneLine(WRITTEN_PREFIX);
  }

  /** A text none of whose characters is a line break holds no line break. */
  lemma {:induction false} OneLine(s: string)
    requires forall i :: 0 <= i < |s| ==> s[i] != '\n'
    ensures '\n' !in s
  {
  }

  /** The text of LeadingComment, around the time the tree was read. */
  function LeadingText(loaded: string): string
  {
    PROCESSED_LINE + "\n" + PREVIOUS_PREFIX + loaded + "\n\n"
  }

  /** The text of TrailingComment, around the time of writing. */
  function TrailingText(now: string): string
  {
    "\n" + WRITTEN_PREFIX + now
  }

  class DataWriter {
    /** m_Indent. */
    const indent: nat
    /** The string interner the attribute names and values are retrieved from. */
    const dedup: StringDeduplicator

    constructor(dedup: StringDeduplicator)
      ensures indent == DEFAULT_INDENT && this.dedup == dedup
    {
      indent := DEFAULT_INDENT;
      this.dedup := dedup;
    }

    /**
     * What WriteHierarchy writes for the tree h at depth: nothing for a null
     * tree, otherwise one entry per attribute in ascending hash order.
     */
    ghost function Render(h: DataHierarchy?, S: set<DataHierarchy>, depth: nat): string
      requires h != null ==> Acyclic(h, S)
      reads S, dedup
      decreases S, 1
    {
      if h == null then [] else RenderKeys(h, SortedHashes(h.children.Keys), S, depth)
    }

    /** The entries of h for the keys, in their order. */
    ghost function RenderKeys(h: DataHierarchy, keys: seq<Uint32>, S: set<DataHierarchy>, depth: nat): string
      requires Acyclic(h, S)
      reads S, dedup
      decreases S, 0, |keys|
    {
      if keys == [] then []
      else RenderKeys(h, keys[..|keys| - 1], S, depth) + Entry(h, keys[|keys| - 1], S, depth)
    }

    /**
     * One attribute of h: a BASIC value as `name = value` and a newline, the
     * value verbatim; a STRUCT as `name = {`, the struct one level deeper and
     * `}`; nothing for INVALID.
     */
    ghost function Entry(h: DataHierarchy, k: Uint32, S: set<DataHierarchy>, depth: nat): string
      requires Acyclic(h, S)
      reads S, dedup
      decreases S, 0, 0
    {
      var v := h.Value(k);
      var pad := Spaces(depth * indent);
      match v
      case Invalid => []
      case Basic(_) => pad + dedup.Retrieve(k) + " = " + BasicString(v, dedup) + "\n"
      case Struct(node) =>
        pad + dedup.Retrieve(k) + " = " + "{\n" + Render(node, S - {h}, depth + 1) + pad + "}\n"
    }

    /**
     * Indent: appends exactly amount spaces. The QTextStream the writer
     * appends to is the text written so far, passed in as out and handed back
     * with the new text after it.
     */
    method Indent(out: string, amount: nat) returns (out': string)
      ensures out' == out + Spaces(amount)
    {
      out' := out;
      for count := 0 to amount
        invariant out' == out + Spaces(count)
      {
        assert Spaces(count + 1) == Spaces(count) + " ";
        out' := out' + " ";
      }
    }

    /** LeadingComment: always succeeds. The time the tree was read is the parameter loaded. */
    method LeadingComment(out: string, loaded: string) returns (ok: bool, out': string)
      ensures ok && out' == out + LeadingText(loaded)
    {
      out' := out + PROCESSED_LINE + "\n";
      out' := out' + PREVIOUS_PREFIX;
      out' := out' + loaded;
      out' := out' + "\n\n";
      ok := true;
    }

    /** TrailingComment: always succeeds. The clock's reading is the parameter now. */
    method TrailingComment(out: string, now: string) returns (ok: bool, out': string)
      ensures ok && out' == out + TrailingText(now)
    {
      out' := out + "\n";
      out' := out' + WRITTEN_PREFIX;
      out' := out' + now;
      ok := true;
    }

    /**
     * WriteHierarchy: always succeeds, and appends Render of the tree. The
     * ghost set S bounds the tree, which has no cycle within it.
     */
    method WriteHierarchy(out: string, hierarchy: DataHierarchy?, depth: nat, ghost S: set<DataHierarchy>)
      returns (ok: bool, out': string)
      requires hierarchy != null ==> Acyclic(hierarchy, S)
      ensures ok
      ensures out' == out + Render(hierarchy, S, depth)
      decreases S, 2
    {
      ok := true;
      out' := out;
      if hierarchy != null {
        ok, out' := WriteAttributes(out, hierarchy, depth, S);
      }
    }

    /** The loop of WriteHierarchy over the attributes of a tree, in ascending hash order. */
    method WriteAttributes(out: string, hierarchy: DataHierarchy, depth: nat, ghost S: set<DataHierarchy>)
      returns (ok: bool, out': string)
      requires Acyclic(hierarchy, S)
      ensures ok
      ensures out' == out + RenderKeys(hierarchy, SortedHashes(hierarchy.children.Keys), S, depth)
      decreases S, 1
    {
      ok := true;
      out' := out;
      var attribIds, _ := hierarchy.AllAttributes();
      var count := 0;
      while ok && count < |attribIds|
        invariant count <= |attribIds| && ok && attribIds == SortedHashes(hierarchy.children.Keys)
        invariant out' == out + RenderKeys(hierarchy, attribIds[..count], S, depth)
      {
        ghost var before := out';
        ok, out' := WriteEntry(out', hierarchy, attribIds[count], depth, S);
        EntryAppended(out, before, out', hierarchy, attribIds, count, S, depth);
        count := count + 1;
      }
      assert attribIds[..count] == attribIds;
    }

    /** Appending the entry of the next key to what the keys so far rendered renders one more key. */
    lemma {:induction false} EntryAppended(out: string, before: string, after: string, h: DataHierarchy, keys: seq<Uint32>, i: nat,
                        S: set<DataHierarchy>, depth: nat)
      requires Acyclic(h, S) && i < |keys|
      requires before == out + RenderKeys(h, keys[..i], S, depth)
      requires after == before + Entry(h, keys[i], S, depth)
      ensures after == out + RenderKeys(h, keys[..i + 1], S, depth)
    {
      RenderKeysNext(h, keys, i, S, depth);
    }

    /** One more key renders one more entry. */
    lemma {:induction false} RenderKeysNext(h: DataHierarchy, keys: seq<Uint32>, i: nat, S: set<DataHierarchy>, depth: nat)
      requires Acyclic(h, S) && i < |keys|
      ensures RenderKeys(h, keys[..i + 1], S, depth) == RenderKeys(h, keys[..i], S, depth) + Entry(h, keys[i], S, depth)
    {
      assert keys[..i + 1][..i] == keys[..i];
    }

    /** The body of WriteHierarchy's loop: one attribute of the tree, as Entry gives it. */
    method WriteEntry(out: string, hierarchy: DataHierarchy, k: Uint32, depth: nat, ghost S: set<DataHierarchy>)
      returns (ok: bool, out': string)
      requires Acyclic(hierarchy, S)
      ensures ok
      ensures out' == out + Entry(hierarchy, k, S, depth)
      decreases S, 0
    {
      ok := true;
      out' := out;
      var attribName := dedup.Retrieve(k);
      var dval := hierarchy.Value(k);
      ghost var pad := Spaces(depth * indent);
      // Each append leaves out' as out followed by the entry written so far.
      if dval.Basic? {
        var valueStr := BasicString(dval, dedup);
        out' := Indent(out', depth * indent);
        out' := out' + attribName;
        assert out' == out + (pad + attribName);
        out' := out' + " = ";
        assert out' == out + (pad + attribName + " = ");
        out' := out' + valueStr;
        assert out' == out + (pad + attribName + " = " + valueStr);
        out' := out' + "\n";
        assert out' == out + (pad + attribName + " = " + valueStr + "\n");
      } else if dval.Struct? {
        out' := Indent(out', depth * indent);
        out' := out' + attribName;
        assert out' == out + (pad + attribName);
        out' := out' + " = ";
        assert out' == out + (pad + attribName + " = ");
        out' := out' + "{\n";
        ghost var head := pad + attribName + " = " + "{\n";
        assert out' == out + head;
        ok, out' := WriteHierarchy(out', StructValue(dval), depth + 1, S - {hierarchy});
        ghost var inner := Render(StructValue(dval), S - {hierarchy}, depth + 1);
        assert out' == out + (head + inner);
        out' := Indent(out', depth * indent);
        assert out' == out + (head + inner + pad);
        out' := out' + "}\n";
        assert out' == out + (head + inner + pad + "}\n");
      }
    }

    /**
     * Write: nothing is written, and false returned, for a null tree, an empty
     * file name or a file that cannot be opened; otherwise the file receives
     * the leading comment, the tree from depth 0 and the trailing comment.
     */
    method Write(hierarchy: DataHierarchy?, fileName: string, loaded: string, now: string, isOpen: bool,
                 ghost S: set<DataHierarchy>)
      returns (ok: bool, written: Option<string>)
      requires hierarchy != null ==> Acyclic(hierarchy, S)
      ensures ok <==> hierarchy != null && fileName != [] && isOpen
      ensures ok ==> written == Some(LeadingText(loaded) + Render(hierarchy, S, 0) + TrailingText(now))
      ensures !ok ==> written == None
    {
      ok := false;
      written := None;
      if hierarchy != null && fileName != [] {
        if isOpen {
          var stream: string := [];
          ok, stream := LeadingComment(stream, loaded);
          if ok {
            ok, stream := WriteHierarchy(stream, hierarchy, 0, S);
          }
          if ok {
            ok, stream := TrailingComment(stream, now);
          }
          assert LeadingText(loaded) == [] + LeadingText(loaded);
          written := Some(stream);
        }
      }
    }
  }



  // ---------------------------------------------------------------------------
  // The comments.
  // ---------------------------------------------------------------------------

  /** A text without the separator splits into itself alone. */
  lemma {:induction false} SplitNone(a: string, sep: char)
    requires sep !in a
    ensures Split(a, sep) == [a]
  {
    assert IndexOf(a, sep) == |a|;
  }

  /** The first separator after a text without one sits right after that text. */
  lemma {:induction false} IndexOfAfter(a: string, b: string, sep: char)
    requires sep !in a
    ensures IndexOf(a + [sep] + b, sep) == |a|
    decreases |a|
  {
    if a != [] {
      assert (a + [sep] + b)[1..] == a[1..] + [sep] + b;
      IndexOfAfter(a[1..], b, sep);
    }
  }

  /** A line before the separator is split off as it is. */
  lemma {:induction false} SplitFirst(a: string, b: string, sep: char)
    requires sep !in a
    ensures Split(a + [sep] + b, sep) == [a] + Split(b, sep)
  {
    var s := a + [sep] + b;
    IndexOfAfter(a, b, sep);
    assert s[..|a|] == a;
    assert s[|a| + 1..] == b;
  }

  /** The lines of the leading comment, given a timestamp of one line. */
  lemma {:induction false} LeadingLines(loaded: string)
    requires '\n' !in loaded
    ensures Split(LeadingText(loaded), '\n') == [PROCESSED_LINE, PREVIOUS_PREFIX + loaded, "", ""]
  {
    var l2 := PREVIOUS_PREFIX + loaded;
    CommentTextsOneLine();
    assert '\n' !in l2 by {
      assert forall i :: 0 <= i < |l2| ==> l2[i] in PREVIOUS_PREFIX || l2[i] in loaded;
    }
    LeadingSplit(PROCESSED_LINE, l2);
    assert LeadingText(loaded) == PROCESSED_LINE + "\n" + l2 + "\n\n";
  }

  /** The lines of the trailing comment, given a timestamp of one line. */
  lemma {:induction false} TrailingLines(now: string)
    requires '\n' !in now
    ensures Split(TrailingText(now), '\n') == ["", WRITTEN_PREFIX + now]
  {
    var l := WRITTEN_PREFIX + now;
    CommentTextsOneLine();
    assert '\n' !in l by {
      assert forall i :: 0 <= i < |l| ==> l[i] in WRITTEN_PREFIX || l[i] in now;
    }
    TrailingSplit(l);
    assert TrailingText(now) == "\n" + l;
  }

  /** Given timestamps of one line, every line of the two comments is blank or starts with `#`. */
  lemma {:induction false} CommentLines(loaded: string, now: string)
    requires '\n' !in loaded && '\n' !in now
    ensures forall l :: l in Split(LeadingText(loaded), '\n') + Split(TrailingText(now), '\n') ==> l == [] || l[0] == '#'
  {
    LeadingLines(loaded);
    TrailingLines(now);
  }

  /** Two lines, each with its line break, and one more line break split into the two lines and two empty ones. */
  lemma {:induction false} LeadingSplit(l1: string, l2: string)
    requires '\n' !in l1 && '\n' !in l2
    ensures Split(l1 + "\n" + l2 + "\n\n", '\n') == [l1, l2, "", ""]
  {
    var tail := l2 + ['\n'] + ['\n'];
    assert l1 + "\n" + l2 + "\n\n" == l1 + ['\n'] + tail;
    SplitFirst(l1, tail, '\n');
    SplitBlankEnd(l2, '\n');
    assert [l1] + [l2, [], []] == [l1, l2, "", ""];
  }

  /** A line followed by two separators splits into the line and two empty lines. */
  lemma {:induction false} SplitBlankEnd(l: string, sep: char)
    requires sep !in l
    ensures Split(l + [sep] + [sep], sep) == [l, [], []]
  {
    var e: string := [];
    SplitFirst(l, [sep], sep);
    assert [sep] == e + [sep] + e;
    SplitFirst(e, e, sep);
    SplitNone(e, sep);
  }

  /** A line break and then a line split into an empty line and that line. */
  lemma {:induction false} TrailingSplit(l3: string)
    requires '\n' !in l3
    ensures Split("\n" + l3, '\n') == ["", l3]
  {
    var e: string := [];
    SplitFirst(e, l3, '\n');
    assert e + ['\n'] + l3 == "\n" + l3;
    SplitNone(l3, '\n');
  }

  // ---------------------------------------------------------------------------
  // What the reader makes of the lines the writer writes.
  // ---------------------------------------------------------------------------

  /** A comment line, or a blank one, reads as nothing: no error, no change. */
  lemma {:induction false} CommentLineReads(l: string, depth: nat, touched: bool)
    requires depth >= 1
    requires (l != [] && l[0] == '#') || forall i :: 0 <= i < |l| ==> IsSpace(l[i])
    ensures LineSpec(l, depth, touched) == Outcome(ReadOk, depth, touched)
  {
    var t := Trim(l);
    if l != [] && l[0] == '#' {
      assert TrimStart(l) == l;
      TrimEndBlank(l);
      assert t != [] && t[0] == '#';
      TrimTwice(l);
      LexPunctuation(t);
      assert Lex(t) == Lexeme(Comment, t, []);
      assert RunText(t, CloseOrAttrib, depth, touched) == RunFrom(Comment, t, [], CloseOrAttrib, depth, touched);
    } else {
      TrimEmptyIffBlank(l);
      LexBlank(t);
    }
  }

  /** The indentation, and the newline, are trimmed away. */
  lemma {:induction false} PaddedLine(n: nat, x: string)
    requires x != [] && !IsSpace(x[0]) && !IsSpace(x[|x| - 1])
    ensures Trim(Spaces(n) + x + "\n") == x
  {
    TrimPadded(Spaces(n), x, "\n");
  }

  /**
   * A plain value after `=` is stored verbatim on the top struct under the
   * attribute's hash, and the line ends there; at depth 1 that is the root.
   */
  lemma {:induction false} ValueReads(value: string, name: string, stack: seq<Frame>, hash: string -> Uint32)
    requires |stack| >= 1 && PlainWord(value)
    ensures RunText(" " + value, ValueOrOpen, |stack|, false) == Outcome(ReadOk, |stack|, |stack| == 1)
    ensures BuildText(" " + value, ValueOrOpen, name, stack, hash) == SetTop(stack, hash(name), Text(hash(value)))
  {
    var depth := |stack|;
    ValueLexes(value);
    var cur := Token(AttribOrValue, value);
    assert StepOf(cur, ValueOrOpen, depth) == Go(CloseOrAttrib, depth, depth == 1);
    var stored := SetTop(stack, hash(name), Text(hash(value)));
    assert StoreOf(cur, ValueOrOpen, name, stack, hash) == stored;
    EndReads(name, stored, depth, depth == 1, hash);
  }

  /** A plain value after a space is one whole term that unquotes to itself. */
  lemma {:induction false} ValueLexes(value: string)
    requires PlainWord(value)
    ensures Lex(" " + value) == Lexeme(AttribOrValue, value, [])
    ensures Unquote(value) == Unquoted(ValueOk, value)
  {
    LeadingSpace(value);
    LexPlain(value, []);
    assert value + [] == value;
    UnquoteStopsAtSpace(value, ' ', []);
  }

  /** The end of the line, after a value or `{`, reads as nothing more. */
  lemma {:induction false} EndReads(name: string, stack: seq<Frame>, depth: nat, touched: bool, hash: string -> Uint32)
    requires depth >= 1 && |stack| >= 1
    ensures RunText([], CloseOrAttrib, depth, touched) == Outcome(ReadOk, depth, touched)
    ensures BuildText([], CloseOrAttrib, name, stack, hash) == stack
  {
    LexBlank([]);
  }

  /** `=` moves on to the value, and stores nothing by itself. */
  lemma {:induction false} EqualsReads(x: string, name: string, stack: seq<Frame>, hash: string -> Uint32)
    requires |stack| >= 1 && x != [] && !IsSpace(x[|x| - 1])
    ensures RunText(" = " + x, ExpectEquals, |stack|, false) == RunText(" " + x, ValueOrOpen, |stack|, false)
    ensures BuildText(" = " + x, ExpectEquals, name, stack, hash) == BuildText(" " + x, ValueOrOpen, name, stack, hash)
  {
    var e := "=" + (" " + x);
    assert " = " + x == " " + e;
    LeadingSpace(e);
    LexPunctuation(e);
    TrimmedAlready(e);
    assert e[1..] == " " + x;
    assert Lex(" = " + x) == Lexeme(EqualsSign, "=", " " + x);
    assert StepOf(Token(EqualsSign, "="), ExpectEquals, |stack|) == Go(ValueOrOpen, |stack|, false);
  }

  /**
   * A plain name, `=` and a plain value read as one pair: the value is
   * stored verbatim under the name's hash on the top struct, which is the
   * root at depth 1.
   */
  lemma {:induction false} PairReads(name: string, value: string, stack: seq<Frame>, hash: string -> Uint32)
    requires |stack| >= 1 && PlainWord(name) && PlainWord(value)
    ensures RunText(name + " = " + value, CloseOrAttrib, |stack|, false) == Outcome(ReadOk, |stack|, |stack| == 1)
    ensures BuildText(name + " = " + value, CloseOrAttrib, [], stack, hash) == SetTop(stack, hash(name), Text(hash(value)))
  {
    var r := " = " + value;
    assert name + " = " + value == name + r;
    NameReads(name, r, stack, hash);
    EqualsReads(value, name, stack, hash);
    ValueReads(value, name, stack, hash);
  }

  /** A plain name at the start of a line is remembered, stores nothing, and `=` is expected next. */
  lemma {:induction false} NameReads(name: string, r: string, stack: seq<Frame>, hash: string -> Uint32)
    requires |stack| >= 1 && PlainWord(name) && r != [] && r[0] == ' ' && !IsSpace(r[|r| - 1])
    ensures RunText(name + r, CloseOrAttrib, |stack|, false) == RunText(r, ExpectEquals, |stack|, false)
    ensures BuildText(name + r, CloseOrAttrib, [], stack, hash) == BuildText(r, ExpectEquals, name, stack, hash)
  {
    LexPlain(name, r);
    assert StepOf(Token(AttribOrValue, name), CloseOrAttrib, |stack|) == Go(ExpectEquals, |stack|, false);
  }

  /**
   * A BASIC entry with a plain name and a plain value, at any indentation,
   * reads back as that pair: the line gives no error and stores the value
   * under the name's hash on the top struct.
   */
  lemma {:induction false} BasicLineReads(n: nat, name: string, value: string, stack: seq<Frame>, hash: string -> Uint32)
    requires |stack| >= 1 && PlainWord(name) && PlainWord(value)
    ensures LineSpec(Spaces(n) + name + " = " + value + "\n", |stack|, false) == Outcome(ReadOk, |stack|, |stack| == 1)
    ensures LineBuild(Spaces(n) + name + " = " + value + "\n", stack, hash) == SetTop(stack, hash(name), Text(hash(value)))
  {
    var x := name + " = " + value;
    assert Spaces(n) + name + " = " + value + "\n" == Spaces(n) + x + "\n";
    PaddedLine(n, x);
    PairReads(name, value, stack, hash);
  }

  /** `{` after `=` stores an empty struct under the attribute's hash and opens it, and the line ends there. */
  lemma {:induction false} OpenReads(name: string, stack: seq<Frame>, hash: string -> Uint32)
    requires |stack| >= 1
    ensures RunText(" " + "{", ValueOrOpen, |stack|, false) == Outcome(ReadOk, |stack| + 1, |stack| == 1)
    ensures BuildText(" " + "{", ValueOrOpen, name, stack, hash) ==
      SetTop(stack, hash(name), Nested(map[])) + [Frame(map[], hash(name))]
  {
    var depth := |stack|;
    var e: string := [];
    LeadingSpace("{");
    TrimmedAlready("{");
    LexPunctuation("{");
    assert "{"[1..] == e;
    var stored := SetTop(stack, hash(name), Nested(map[])) + [Frame(map[], hash(name))];
    assert StoreOf(Token(OpenStruct, "{"), ValueOrOpen, name, stack, hash) == stored;
    EndReads(name, stored, depth + 1, depth == 1, hash);
  }

  /** A plain name, `=` and `{` open a struct stored under the name's hash. */
  lemma {:induction false} OpenPairReads(name: string, stack: seq<Frame>, hash: string -> Uint32)
    requires |stack| >= 1 && PlainWord(name)
    ensures RunText(name + (" = " + "{"), CloseOrAttrib, |stack|, false) == Outcome(ReadOk, |stack| + 1, |stack| == 1)
    ensures BuildText(name + (" = " + "{"), CloseOrAttrib, [], stack, hash) ==
      SetTop(stack, hash(name), Nested(map[])) + [Frame(map[], hash(name))]
  {
    var r := " = " + "{";
    NameReads(name, r, stack, hash);
    EqualsReads("{", name, stack, hash);
    OpenReads(name, stack, hash);
  }

  /** A STRUCT's opening line reads back as an empty struct under the name's hash, opened one level deeper. */
  lemma {:induction false} OpenLineReads(n: nat, name: string, stack: seq<Frame>, hash: string -> Uint32)
    requires |stack| >= 1 && PlainWord(name)
    ensures LineSpec(Spaces(n) + name + " = " + "{\n", |stack|, false) == Outcome(ReadOk, |stack| + 1, |stack| == 1)
    ensures LineBuild(Spaces(n) + name + " = " + "{\n", stack, hash) ==
      SetTop(stack, hash(name), Nested(map[])) + [Frame(map[], hash(name))]
  {
    var x := name + (" = " + "{");
    assert Spaces(n) + name + " = " + "{\n" == Spaces(n) + x + "\n";
    PaddedLine(n, x);
    OpenPairReads(name, stack, hash);
  }

  /**
   * A STRUCT's closing line closes the top struct into the one below it; at
   * depth 1 it is a context underflow and stores nothing.
   */
  lemma {:induction false} CloseLineReads(n: nat, stack: seq<Frame>, hash: string -> Uint32)
    requires |stack| >= 1
    ensures LineSpec(Spaces(n) + "}\n", |stack|, false) ==
      if |stack| > 1 then Outcome(ReadOk, |stack| - 1, false) else Outcome(ContextUnderflow, |stack|, false)
    ensures LineBuild(Spaces(n) + "}\n", stack, hash) == if |stack| > 1 then CloseTop(stack) else stack
  {
    var depth := |stack|;
    assert Spaces(n) + "}\n" == Spaces(n) + "}" + "\n";
    PaddedLine(n, "}");
    TrimmedAlready("}");
    LexPunctuation("}");
    var e: string := [];
    assert "}"[1..] == e;
    if depth > 1 {
      LexBlank(e);
      assert RunText(e, CloseOrAttrib, depth - 1, false) == Outcome(ReadOk, depth - 1, false);
      assert BuildText(e, CloseOrAttrib, [], CloseTop(stack), hash) == CloseTop(stack);
    }
  }
}
