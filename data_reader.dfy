/**
 * The document reader: a three-state machine over the terms of each line,
 * with a stack of the structs that are open. The file is given as the
 * sequence of lines that were read from it.
 */
module Reading {
  import opened QtText
  import opened StringUtils
  import opened Deduplication
  import opened Hierarchy

  /** DataReader::Error. */
  datatype ReadError =
    | ReadOk | MissingValue | UnfinishedValue | MalformedAttribute
    | MissingAttribute | NoEquals | ContextUnderflow | UnknownTerm

  /** DataReader::State: what the machine expects next on the line. */
  datatype ReadState = CloseOrAttrib | ExpectEquals | ValueOrOpen

  /**
   * What reading a line (or a file) comes to: the error code, the depth of
   * the context stack afterwards, and whether a value was set on the root.
   */
  datatype Outcome = Outcome(err: ReadError, depth: nat, touched: bool)

  /**
   * One term taken by the machine: either the line stops here with an error
   * code (ERROR_OK for a clean end), or the machine goes on in a new state
   * with a new depth, having possibly set a value on the root.
   */
  datatype Move = Stop(err: ReadError) | Go(next: ReadState, depth: nat, setsRoot: bool)

  /**
   * The switch of ParseLine for one term cur, in state st with depth contexts
   * open. A value or `{` after `=` is stored on the top context, which is the
   * root when depth is 1.
   */
  function StepOf(cur: Token, st: ReadState, depth: nat): (m: Move)
    requires depth >= 1
    ensures cur.kind == EndOfLine ==> m.Stop?
    ensures m.Go? ==> m.depth >= 1
  {
    match st
    case CloseOrAttrib =>
      if cur.kind == CloseStruct then
        if depth > 1 then Go(CloseOrAttrib, depth - 1, false) else Stop(ContextUnderflow)
      else if cur.kind == AttribOrValue then Go(ExpectEquals, depth, false)
      else if cur.kind == Comment || cur.kind == EndOfLine then Stop(ReadOk)
      else if cur.kind == OpenStruct || cur.kind == EqualsSign then Stop(MissingAttribute)
      else Stop(MalformedAttribute)
    case ExpectEquals =>
      if cur.kind == EqualsSign then Go(ValueOrOpen, depth, false) else Stop(NoEquals)
    case ValueOrOpen =>
      if cur.kind == AttribOrValue || cur.kind == ValueOnly then
        if Unquote(cur.text).error == ValueOk then Go(CloseOrAttrib, depth, depth == 1)
        else Stop(UnfinishedValue)
      else if cur.kind == OpenStruct then Go(CloseOrAttrib, depth + 1, depth == 1)
      else Stop(MissingValue)
  }

  /**
   * What one turn of the switch reports for a move from state st at the given
   * depth: the error code, whether the line is done, the state and the depth
   * after it. A stop leaves state and depth as they were.
   */
  function Report(m: Move, st: ReadState, depth: nat): (ReadError, bool, ReadState, nat)
  {
    if m.Stop? then (m.err, true, st, depth) else (ReadOk, false, m.next, m.depth)
  }

  /**
   * The machine of ParseLine, from state st with depth contexts open, on the
   * pending term (kind, text) followed by the text rest of the line.
   */
  function RunFrom(kind: Term, text: string, rest: string, st: ReadState, depth: nat, touched: bool): (o: Outcome)
    requires depth >= 1
    ensures o.depth >= 1
    ensures touched ==> o.touched
    decreases |rest| + (if kind == EndOfLine then 0 else 1), 0
  {
    var m := StepOf(Token(kind, text), st, depth);
    if m.Stop? then Outcome(m.err, depth, touched)
    else RunText(rest, m.next, m.depth, touched || m.setsRoot)
  }

  /** The machine on what is left of a line: NextTerm takes the next term off it. */
  function RunText(line: string, st: ReadState, depth: nat, touched: bool): (o: Outcome)
    requires depth >= 1
    ensures o.depth >= 1
    ensures touched ==> o.touched
    decreases |line|, 1
  {
    var x := Lex(line);
    LexShrinks(line);
    RunFrom(x.kind, x.text, x.rest, st, depth, touched)
  }

  /**
   * One term of the machine and of what it stores. When it stops on the
   * pending term, the line comes to that term's error code and nothing is
   * stored. When it goes on, the next term is taken off a strictly shorter
   * rest, and the line comes to, and stores, what it does from there, after
   * the term's own store.
   */
  lemma {:induction false} TermStep(kind: Term, text: string, rest: string, st: ReadState, name: string, stack: seq<Frame>,
                                    touched: bool, hash: string -> Uint32)
    requires |stack| >= 1
    ensures var cur := Token(kind, text); var m := StepOf(cur, st, |stack|); var x := Lex(rest);
      && (m.Stop? ==> RunFrom(kind, text, rest, st, |stack|, touched) == Outcome(m.err, |stack|, touched)
                      && StoreOf(cur, st, name, stack, hash) == stack && BuildFrom(kind, text, rest, st, name, stack, hash) == stack)
      && (m.Go? ==>
            && |x.rest| + (if x.kind == EndOfLine then 0 else 1) < |rest| + (if kind == EndOfLine then 0 else 1)
            && RunFrom(kind, text, rest, st, |stack|, touched) == RunFrom(x.kind, x.text, x.rest, m.next, m.depth, touched || m.setsRoot)
            && BuildFrom(kind, text, rest, st, name, stack, hash) ==
               BuildFrom(x.kind, x.text, x.rest, m.next, NameOf(cur, st, name), StoreOf(cur, st, name, stack, hash), hash))
  {
    LexShrinks(rest);
  }

  /** On a value or `{`, the machine sets the attribute and goes back to waiting for a name. */
  lemma {:induction false} ValueStep(kind: Term, text: string, depth: nat)
    requires depth >= 1
    ensures var m := StepOf(Token(kind, text), ValueOrOpen, depth);
      && (m.Go? <==> kind == OpenStruct || ((kind == AttribOrValue || kind == ValueOnly) && Unquote(text).error == ValueOk))
      && (m.Go? ==> m.next == CloseOrAttrib && m.setsRoot == (depth == 1))
      && (m.Go? && kind == OpenStruct ==> m.depth == depth + 1)
      && (m.Go? && kind != OpenStruct ==> m.depth == depth)
      && (m.Stop? ==> m.err == if kind == AttribOrValue || kind == ValueOnly then UnfinishedValue else MissingValue)
  { }

  /**
   * Where ParseLine stands on a line whose machine comes to spec and whose
   * stores come to stores: while the line goes on, both are what is left
   * from the pending term cur; once it is done, err and the depth are the
   * outcome, and the frames are the stores.
   */
  ghost predicate Pending(spec: Outcome, stores: seq<Frame>, err: ReadError, done: bool, cur: Token, line: string,
                          st: ReadState, name: string, depth: nat, touched: bool, frames: seq<Frame>, hash: string -> Uint32)
  {
    && depth >= 1 && |frames| >= 1
    && (!done ==> err == ReadOk && spec == RunFrom(cur.kind, cur.text, line, st, depth, touched)
                  && stores == BuildFrom(cur.kind, cur.text, line, st, name, frames, hash))
    && (done ==> spec == Outcome(err, depth, touched) && stores == frames)
  }

  /**
   * Where ParseLine stands on a line whose stores in the interner come to
   * interned: while the line goes on, they are what is left from the pending
   * term cur on the table strings; once it is done, the table is interned.
   */
  ghost predicate Interning(interned: map<Uint32, string>, done: bool, cur: Token, line: string, st: ReadState, name: string,
                            depth: nat, strings: map<Uint32, string>, hash: string -> Uint32)
  {
    && depth >= 1
    && (!done ==> interned == InternFrom(cur.kind, cur.text, line, st, name, depth, strings, hash))
    && (done ==> interned == strings)
  }

  /**
   * After one term, ParseLine stands where Interning says: with the error,
   * state and depth the switch reports, the name it remembers, and the table
   * the term's own store leaves.
   */
  lemma {:induction false} InternTurn(kind: Term, text: string, rest: string, st: ReadState, name: string, depth: nat,
                                      strings: map<Uint32, string>, hash: string -> Uint32)
    requires depth >= 1
    ensures var cur := Token(kind, text); var x := Lex(rest); var r := Report(StepOf(cur, st, depth), st, depth);
      Interning(InternFrom(kind, text, rest, st, name, depth, strings, hash), r.1, Token(x.kind, x.text), x.rest, r.2,
                NameOf(cur, st, name), r.3, InternOf(cur, st, name, strings, hash), hash)
  {
    InternStep(kind, text, rest, st, name, depth, strings, hash);
  }

  /** The start of ParseLine: the line is trimmed and its first term taken off. */
  method FirstPending(fileLine: string, ghost depth: nat, ghost spec: Outcome, ghost stores: seq<Frame>,
                      ghost frames: seq<Frame>, ghost hash: string -> Uint32, ghost interned: map<Uint32, string>,
                      ghost strings: map<Uint32, string>) returns (currTerm: Term, termStr: string, line: string)
    requires depth >= 1 && spec == LineSpec(fileLine, depth, false)
    requires |frames| >= 1 && stores == LineBuild(fileLine, frames, hash)
    requires interned == LineIntern(fileLine, depth, strings, hash)
    ensures Pending(spec, stores, ReadOk, false, Token(currTerm, termStr), line, CloseOrAttrib, [], depth, false, frames, hash)
    ensures Interning(interned, false, Token(currTerm, termStr), line, CloseOrAttrib, [], depth, strings, hash)
    ensures Lexeme(currTerm, termStr, line) == Lex(Trim(fileLine))
  {
    line := Trim(fileLine);
    currTerm, termStr, line := NextTerm(line);
  }

  /** ParseLine on one line of the file: every line starts afresh in STATE_CLOSE_OR_ATTRIB. */
  function LineSpec(line: string, depth: nat, touched: bool): (o: Outcome)
    requires depth >= 1
  {
    RunText(Trim(line), CloseOrAttrib, depth, touched)
  }

  /** The lines of a file, read until the first line that gives an error. */
  function ReadLines(lines: seq<string>, depth: nat, touched: bool): (o: Outcome)
    requires depth >= 1
    ensures o.depth >= 1
    decreases |lines|, 1
  {
    if lines == [] then Outcome(ReadOk, depth, touched) else ReadFirst(lines, depth, touched)
  }

  /** The lines of a file that has one: the first is parsed, and the others follow unless it gives an error. */
  function ReadFirst(lines: seq<string>, depth: nat, touched: bool): (o: Outcome)
    requires lines != [] && depth >= 1
    ensures o.depth >= 1
    decreases |lines|, 0
  {
    var o := LineSpec(lines[0], depth, touched);
    if o.err != ReadOk then o else ReadLines(lines[1..], o.depth, o.touched)
  }

  /**
   * Read accepts a file when no line gives an error, at least one attribute
   * was set on the root, and every `{` was closed.
   */
  predicate Accepts(lines: seq<string>)
  {
    var o := ReadLines(lines, 1, false);
    o.err == ReadOk && o.touched && o.depth == 1
  }

  // ---------------------------------------------------------------------------
  // What the lines store: the document as a value.
  // ---------------------------------------------------------------------------

  /**
   * The content of a struct as a value: each attribute hash holds the hash of
   * a string (a BASIC value) or the content of a nested struct.
   */
  datatype Item = Text(id: Uint32) | Nested(attrs: map<Uint32, Item>)

  /** An open struct: what has been set on it so far, and the hash it is stored under in the struct below it. */
  datatype Frame = Frame(attrs: map<Uint32, Item>, key: Uint32)

  /** Sets an item on the top struct of the stack. */
  function SetTop(stack: seq<Frame>, k: Uint32, it: Item): seq<Frame>
    requires |stack| >= 1
  {
    var top := stack[|stack| - 1];
    stack[|stack| - 1 := Frame(top.attrs[k := it], top.key)]
  }

  /** `}`: the top struct is closed, and its content is stored under its key in the struct below. */
  function CloseTop(stack: seq<Frame>): seq<Frame>
    requires |stack| >= 2
  {
    var top := stack[|stack| - 1];
    SetTop(stack[..|stack| - 1], top.key, Nested(top.attrs))
  }

  /**
   * What one term of ParseLine's switch stores, with hash as qHash: `}` closes
   * the top struct, a value that unquotes cleanly is set on it under the
   * attribute's hash, and `{` sets a new empty struct there and opens it.
   * Every other term, an error included, stores nothing.
   */
  function StoreOf(cur: Token, st: ReadState, name: string, stack: seq<Frame>, hash: string -> Uint32): (s: seq<Frame>)
    requires |stack| >= 1
    ensures var m := StepOf(cur, st, |stack|); |s| == if m.Go? then m.depth else |stack|
  {
    match st
    case CloseOrAttrib =>
      if cur.kind == CloseStruct && |stack| > 1 then CloseTop(stack) else stack
    case ExpectEquals => stack
    case ValueOrOpen =>
      if (cur.kind == AttribOrValue || cur.kind == ValueOnly) && Unquote(cur.text).error == ValueOk then
        SetTop(stack, hash(name), Text(hash(Unquote(cur.text).value)))
      else if cur.kind == OpenStruct then
        SetTop(stack, hash(name), Nested(map[])) + [Frame(map[], hash(name))]
      else stack
  }

  /** The attribute name after a term: an ATTRIB_OR_VALUE word where an attribute belongs is remembered. */
  function NameOf(cur: Token, st: ReadState, name: string): string
  {
    if st == CloseOrAttrib && cur.kind == AttribOrValue then cur.text else name
  }

  /**
   * What the machine stores on the stack of open structs, from state st with
   * the attribute name remembered so far, on the pending term (kind, text)
   * followed by the text rest of the line.
   */
  function BuildFrom(kind: Term, text: string, rest: string, st: ReadState, name: string,
                     stack: seq<Frame>, hash: string -> Uint32): (s: seq<Frame>)
    requires |stack| >= 1
    ensures |s| >= 1
    decreases |rest| + (if kind == EndOfLine then 0 else 1), 0
  {
    var cur := Token(kind, text);
    var m := StepOf(cur, st, |stack|);
    if m.Stop? then stack
    else BuildText(rest, m.next, NameOf(cur, st, name), StoreOf(cur, st, name, stack, hash), hash)
  }

  /** The same, on what is left of a line. */
  function BuildText(line: string, st: ReadState, name: string, stack: seq<Frame>, hash: string -> Uint32): (s: seq<Frame>)
    requires |stack| >= 1
    ensures |s| >= 1
    decreases |line|, 1
  {
    var x := Lex(line);
    LexShrinks(line);
    BuildFrom(x.kind, x.text, x.rest, st, name, stack, hash)
  }

  /** What ParseLine stores for one line of the file. */
  function LineBuild(line: string, stack: seq<Frame>, hash: string -> Uint32): (s: seq<Frame>)
    requires |stack| >= 1
    ensures |s| >= 1
  {
    BuildText(Trim(line), CloseOrAttrib, [], stack, hash)
  }

  /** What the lines of a file store, read until the first line that gives an error (that line's stores included). */
  function BuildLines(lines: seq<string>, stack: seq<Frame>, hash: string -> Uint32): (s: seq<Frame>)
    requires |stack| >= 1
    ensures |s| >= 1
    decreases |lines|, 1
  {
    if lines == [] then stack else BuildFirst(lines, stack, hash)
  }

  /** What the lines of a file that has one store: the first line's stores, then the others' unless it gives an error. */
  function BuildFirst(lines: seq<string>, stack: seq<Frame>, hash: string -> Uint32): (s: seq<Frame>)
    requires lines != [] && |stack| >= 1
    ensures |s| >= 1
    decreases |lines|, 0
  {
    var s := LineBuild(lines[0], stack, hash);
    if LineSpec(lines[0], |stack|, false).err != ReadOk then s else BuildLines(lines[1..], s, hash)
  }

  /** The document a file holds: what its lines store on a fresh root. */
  function Document(lines: seq<string>, hash: string -> Uint32): map<Uint32, Item>
  {
    BuildLines(lines, [Frame(map[], 0)], hash)[0].attrs
  }

  // ---------------------------------------------------------------------------
  // What the lines store in the string interner.
  // ---------------------------------------------------------------------------

  /** Every string of an interner table is filed under its own qHash, as Store files it. */
  ghost predicate FiledUnder(strings: map<Uint32, string>, hash: string -> Uint32)
  {
    forall k :: k in strings ==> hash(strings[k]) == k
  }

  /**
   * What one term stores in the interner: DataHierarchy::Set files the
   * attribute name and then the unquoted value when a value is set, and the
   * name alone when `{` sets a struct; every other term stores nothing. The
   * name and the value can then be retrieved under their hashes, and nothing
   * filed before is lost.
   */
  function InternOf(cur: Token, st: ReadState, name: string, strings: map<Uint32, string>,
                    hash: string -> Uint32): (s: map<Uint32, string>)
    ensures strings.Keys <= s.Keys
    ensures FiledUnder(strings, hash) ==> FiledUnder(s, hash)
    ensures st == ValueOrOpen && cur.kind == OpenStruct ==> hash(name) in s && s[hash(name)] == name
    ensures var u := Unquote(cur.text);
      st == ValueOrOpen && (cur.kind == AttribOrValue || cur.kind == ValueOnly) && u.error == ValueOk ==>
        && hash(u.value) in s && s[hash(u.value)] == u.value
        && (hash(name) != hash(u.value) ==> hash(name) in s && s[hash(name)] == name)
    ensures st != ValueOrOpen ==> s == strings
  {
    if st == ValueOrOpen && (cur.kind == AttribOrValue || cur.kind == ValueOnly) && Unquote(cur.text).error == ValueOk then
      var v := Unquote(cur.text).value;
      strings[hash(name) := name][hash(v) := v]
    else if st == ValueOrOpen && cur.kind == OpenStruct then strings[hash(name) := name]
    else strings
  }

  /**
   * What the machine stores in the interner, from state st at the given
   * depth with the attribute name remembered so far, on the pending term
   * (kind, text) followed by the text rest of the line. The table only
   * grows, and keeps every string under its own hash.
   */
  function InternFrom(kind: Term, text: string, rest: string, st: ReadState, name: string, depth: nat,
                      strings: map<Uint32, string>, hash: string -> Uint32): (s: map<Uint32, string>)
    requires depth >= 1
    ensures strings.Keys <= s.Keys
    ensures FiledUnder(strings, hash) ==> FiledUnder(s, hash)
    decreases |rest| + (if kind == EndOfLine then 0 else 1), 0
  {
    var cur := Token(kind, text);
    var m := StepOf(cur, st, depth);
    if m.Stop? then strings
    else InternText(rest, m.next, NameOf(cur, st, name), m.depth, InternOf(cur, st, name, strings, hash), hash)
  }

  /** The same, on what is left of a line. */
  function InternText(line: string, st: ReadState, name: string, depth: nat,
                      strings: map<Uint32, string>, hash: string -> Uint32): (s: map<Uint32, string>)
    requires depth >= 1
    ensures strings.Keys <= s.Keys
    ensures FiledUnder(strings, hash) ==> FiledUnder(s, hash)
    decreases |line|, 1
  {
    var x := Lex(line);
    LexShrinks(line);
    InternFrom(x.kind, x.text, x.rest, st, name, depth, strings, hash)
  }

  /** What ParseLine stores in the interner for one line of the file. */
  function LineIntern(line: string, depth: nat, strings: map<Uint32, string>, hash: string -> Uint32): map<Uint32, string>
    requires depth >= 1
  {
    InternText(Trim(line), CloseOrAttrib, [], depth, strings, hash)
  }

  /**
   * What the lines of a file store in the interner, read until the first
   * line that gives an error (that line's stores included). The table only
   * grows, and keeps every string under its own hash.
   */
  function InternLines(lines: seq<string>, depth: nat, strings: map<Uint32, string>,
                       hash: string -> Uint32): (s: map<Uint32, string>)
    requires depth >= 1
    ensures strings.Keys <= s.Keys
    ensures FiledUnder(strings, hash) ==> FiledUnder(s, hash)
    decreases |lines|
  {
    if lines == [] then strings
    else
      var s := LineIntern(lines[0], depth, strings, hash);
      var o := LineSpec(lines[0], depth, false);
      if o.err != ReadOk then s else InternLines(lines[1..], o.depth, s, hash)
  }

  /**
   * One term of what the machine stores in the interner: a stopping term
   * stores nothing, and otherwise the line stores what it does from the next
   * term on, after this term's own store.
   */
  lemma {:induction false} InternStep(kind: Term, text: string, rest: string, st: ReadState, name: string, depth: nat,
                                      strings: map<Uint32, string>, hash: string -> Uint32)
    requires depth >= 1
    ensures var cur := Token(kind, text); var m := StepOf(cur, st, depth); var x := Lex(rest);
      && (m.Stop? ==> InternFrom(kind, text, rest, st, name, depth, strings, hash) == strings
                      && InternOf(cur, st, name, strings, hash) == strings)
      && (m.Go? ==> InternFrom(kind, text, rest, st, name, depth, strings, hash) ==
                    InternFrom(x.kind, x.text, x.rest, m.next, NameOf(cur, st, name), m.depth, InternOf(cur, st, name, strings, hash), hash))
  {
    LexShrinks(rest);
  }

  /** A stored value matches an item: BASIC holds the item's string hash, STRUCT a closed node whose content is the item's. */
  ghost predicate Agrees(v: DataValue, it: Item, docs: map<DataHierarchy, map<Uint32, Item>>)
  {
    match v
    case Invalid => false
    case Basic(id) => it == Text(id)
    case Struct(c) => c != null && c in docs && it == Nested(docs[c])
  }

  /** A node's attributes match attrs, key by key. */
  ghost predicate Agree(kids: map<Uint32, DataValue>, attrs: map<Uint32, Item>, docs: map<DataHierarchy, map<Uint32, Item>>)
  {
    kids.Keys == attrs.Keys && forall k :: k in kids ==> Agrees(kids[k], attrs[k], docs)
  }

  /** The same for a node with an open struct under key: that key holds the open node itself. */
  ghost predicate AgreeOpen(kids: map<Uint32, DataValue>, attrs: map<Uint32, Item>, docs: map<DataHierarchy, map<Uint32, Item>>,
                            key: Uint32, child: DataHierarchy)
  {
    && kids.Keys == attrs.Keys && key in kids && kids[key] == Struct(child)
    && forall k :: k in kids && k != key ==> Agrees(kids[k], attrs[k], docs)
  }

  /** Open node i, below the top, matches its frame and holds node i + 1 under that node's key. */
  ghost predicate OpenLevel(kids: seq<map<Uint32, DataValue>>, ctx: seq<DataHierarchy>, frames: seq<Frame>,
                            docs: map<DataHierarchy, map<Uint32, Item>>, i: nat)
    requires i + 1 < |kids| && |ctx| == |kids| && |frames| == |kids|
  {
    AgreeOpen(kids[i], frames[i].attrs, docs, frames[i + 1].key, ctx[i + 1])
  }

  /** Every open node below the top matches its frame and holds the node above it. */
  ghost predicate Below(kids: seq<map<Uint32, DataValue>>, ctx: seq<DataHierarchy>, frames: seq<Frame>,
                        docs: map<DataHierarchy, map<Uint32, Item>>)
    requires |ctx| == |kids| && |frames| == |kids|
    decreases |kids|
  {
    |kids| <= 1 ||
    (Below(kids[..|kids| - 1], ctx[..|kids| - 1], frames[..|kids| - 1], docs) && OpenLevel(kids, ctx, frames, docs, |kids| - 2))
  }

  /**
   * The open nodes ctx, whose attributes are kids, match the frames: each
   * holds the next one under the next frame's key, and the top one matches
   * its frame outright.
   */
  ghost predicate StackAgrees(kids: seq<map<Uint32, DataValue>>, ctx: seq<DataHierarchy>, frames: seq<Frame>,
                              docs: map<DataHierarchy, map<Uint32, Item>>)
  {
    && |kids| == |ctx| && |frames| == |ctx| && |ctx| >= 1
    && Below(kids, ctx, frames, docs)
    && Agree(kids[|kids| - 1], frames[|kids| - 1].attrs, docs)
  }

  /** The closed node c matches the content docs gives it. */
  ghost predicate ClosedOk(c: DataHierarchy, docs: map<DataHierarchy, map<Uint32, Item>>)
    reads c
  {
    c in docs && Agree(c.children, docs[c], docs)
  }

  /** Every closed node matches the content docs gives it. */
  ghost predicate ClosedAgree(docs: map<DataHierarchy, map<Uint32, Item>>)
    reads docs.Keys
  {
    forall c {:trigger ClosedOk(c, docs)} :: c in docs ==> ClosedOk(c, docs)
  }

  /**
   * The tree under r holds exactly the document attrs: its attributes match
   * attrs, and every STRUCT below it is a closed node that matches its content.
   */
  ghost predicate Holds(r: DataHierarchy, attrs: map<Uint32, Item>, docs: map<DataHierarchy, map<Uint32, Item>>)
    reads r, docs.Keys
  {
    Agree(r.children, attrs, docs) && ClosedAgree(docs)
  }

  /** Node n of tree has a rank below next, and its STRUCT values refer to nodes of tree ranked above it. */
  ghost predicate NodeRanked(n: DataHierarchy, tree: map<DataHierarchy, map<Uint32, DataValue>>,
                             rank: map<DataHierarchy, nat>, next: nat)
  {
    n in tree && n in rank && rank[n] < next && Climbs(tree[n], rank[n], tree.Keys, rank)
  }

  /** Every STRUCT edge of tree climbs the ranking, and next is above every rank. */
  ghost predicate TreeRanked(tree: map<DataHierarchy, map<Uint32, DataValue>>, rank: map<DataHierarchy, nat>, next: nat)
  {
    forall n {:trigger NodeRanked(n, tree, rank, next)} :: n in tree ==> NodeRanked(n, tree, rank, next)
  }

  /** The open nodes ctx are distinct nodes of tree, none of them closed, and kids lists their attributes. */
  ghost predicate OpenNodes(ctx: seq<DataHierarchy>, kids: seq<map<Uint32, DataValue>>,
                            tree: map<DataHierarchy, map<Uint32, DataValue>>, docs: map<DataHierarchy, map<Uint32, Item>>)
  {
    && |ctx| >= 1 && |kids| == |ctx|
    && (forall i :: 0 <= i < |ctx| ==> ctx[i] in tree && ctx[i] !in docs && kids[i] == tree[ctx[i]])
    && (forall i, j :: 0 <= i < j < |ctx| ==> ctx[i] != ctx[j])
  }

  /** The closed node c of tree matches the content docs gives it. */
  ghost predicate ClosedIn(c: DataHierarchy, tree: map<DataHierarchy, map<Uint32, DataValue>>,
                           docs: map<DataHierarchy, map<Uint32, Item>>)
  {
    c in tree && c in docs && Agree(tree[c], docs[c], docs)
  }

  /** Every closed node of tree matches the content docs gives it. */
  ghost predicate ClosedMatch(tree: map<DataHierarchy, map<Uint32, DataValue>>, docs: map<DataHierarchy, map<Uint32, Item>>)
  {
    forall c {:trigger ClosedIn(c, tree, docs)} :: c in docs ==> ClosedIn(c, tree, docs)
  }

  /**
   * The reader's record of the tree it builds: the attributes of every
   * node, a ranking of the nodes and the next rank to give, the attributes
   * of the open nodes bottom first, the frames the lines have stored, and
   * the content of each closed node.
   */
  datatype Shadow = Shadow(tree: map<DataHierarchy, map<Uint32, DataValue>>, rank: map<DataHierarchy, nat>, next: nat,
                           kids: seq<map<Uint32, DataValue>>, frames: seq<Frame>, docs: map<DataHierarchy, map<Uint32, Item>>)

  /**
   * What the reader keeps true of the tree it builds, stated on the
   * attributes of its nodes: the stack holds distinct open nodes, the
   * edges climb a ranking, the open nodes match the frames and the closed
   * ones their content.
   */
  ghost predicate Inv(ctx: seq<DataHierarchy>, sh: Shadow)
  {
    && OpenNodes(ctx, sh.kids, sh.tree, sh.docs)
    && TreeRanked(sh.tree, sh.rank, sh.next)
    && StackAgrees(sh.kids, ctx, sh.frames, sh.docs)
    && ClosedMatch(sh.tree, sh.docs)
  }

  class DataReader {
    /** m_Contexts: the open structs, the root first and the current one last. */
    var contexts: seq<DataHierarchy>
    /** The string interner that DataHierarchy::Set stores names and values in. */
    const dedup: StringDeduplicator

    /** The nodes of the tree being read. */
    ghost var nodes: set<DataHierarchy>
    /** The attributes of those nodes, their ranking, and what the lines have stored. */
    ghost var sh: Shadow

    /** sh.tree holds the attributes of the nodes, and Inv holds of them. */
    ghost predicate Valid()
      reads this, nodes
    {
      && nodes == sh.tree.Keys
      && (forall n :: n in nodes ==> n.children == sh.tree[n])
      && Inv(contexts, sh)
    }

    constructor(dedup: StringDeduplicator)
      ensures this.dedup == dedup && contexts == []
    {
      this.dedup := dedup;
      contexts := [];
      nodes := {};
      sh := Shadow(map[], map[], 0, [], [], map[]);
    }

    /** The stack and the frames have the same depth, at least 1. */
    lemma Depth()
      requires Valid()
      ensures |sh.frames| == |contexts| >= 1
    {
    }

    /** With only the root open, the root has an attribute exactly when the bottom frame has one. */
    lemma {:induction false} RootCount()
      requires Valid() && |contexts| == 1
      ensures |contexts[0].children| > 0 <==> RootSet(sh.frames)
    {
      Concrete();
      var kids, attrs := contexts[0].children, sh.frames[0].attrs;
      assert kids.Keys == attrs.Keys;
      assert |kids| == |kids.Keys| && |attrs| == |attrs.Keys|;
    }

    /** Inv read back on the nodes themselves: the tree is ranked, and the closed nodes and the bottom one match their content. */
    lemma {:induction false} Concrete()
      requires Valid()
      ensures Ranked(nodes, sh.rank) && ClosedAgree(sh.docs)
      ensures |contexts| == 1 ==> Agree(contexts[0].children, sh.frames[0].attrs, sh.docs)
    {
      forall n | n in nodes
        ensures n in sh.rank && EdgesRanked(n, nodes, sh.rank)
      {
        assert NodeRanked(n, sh.tree, sh.rank, sh.next);
      }
      forall c | c in sh.docs
        ensures ClosedOk(c, sh.docs)
      {
        assert ClosedIn(c, sh.tree, sh.docs);
      }
    }

    /**
     * Read: on an opened file, parses the lines from a fresh root until one
     * gives an error. The root is returned only when the whole file is
     * accepted; the stack is then empty and the root heads a finite tree
     * that holds the file's document.
     */
    method Read(lines: seq<string>, isOpen: bool) returns (r: DataHierarchy?)
      modifies this, dedup
      ensures r != null <==> isOpen && Accepts(lines)
      ensures r != null ==> fresh(r) && contexts == [] && Acyclic(r, nodes)
      ensures r != null ==> Holds(r, Document(lines, dedup.hash), sh.docs)
      ensures dedup.strings == if isOpen then InternLines(lines, 1, old(dedup.strings), dedup.hash) else old(dedup.strings)
    {
      r := null;
      if isOpen {
        var root := new DataHierarchy();
        ghost var start := InvStart(root);
        // A new hierarchy: the stack is cleared and the root pushed.
        contexts, nodes, sh := [root], {root}, start;
        // Whether the root ends up with an attribute shows in the bottom frame.
        BuildLinesDepth(lines, start.frames, dedup.hash, false);
        var err := ReadAll(lines);
        if |contexts| == 1 {
          RootCount();
        }
        if err != ReadOk || root.Children() == 0 {
          // The source deletes the root here.
        } else {
          if |contexts| == 1 {
            r := Finish();
          } else {
            // Mismatched { and }: the source deletes the root here.
          }
        }
      }
    }

    /** The root popped off a stack that holds only it: it heads a finite tree that holds what the bottom frame stores. */
    method Finish() returns (r: DataHierarchy)
      requires Valid() && |contexts| == 1
      modifies this
      ensures r == old(contexts[0]) && contexts == [] && nodes == old(nodes) && sh == old(sh)
      ensures Acyclic(r, nodes) && Holds(r, sh.frames[0].attrs, sh.docs)
    {
      Concrete();
      RankedAcyclic(contexts[0], nodes, nodes, sh.rank);
      r := contexts[|contexts| - 1];
      contexts := contexts[..|contexts| - 1];
    }

    /**
     * The loop of Read: lines are parsed in turn until one gives an error.
     * Error code and depth are those of ReadLines from the stack's depth,
     * and the frames those of BuildLines.
     */
    method ReadAll(lines: seq<string>) returns (err: ReadError)
      requires Valid()
      modifies this, nodes, dedup
      ensures Valid() && contexts[0] == old(contexts[0])
      ensures old(nodes) <= nodes && forall n :: n in nodes ==> n in old(nodes) || fresh(n)
      ensures var o := ReadLines(lines, old(|contexts|), false);
        err == o.err && |contexts| == o.depth
      ensures sh.frames == BuildLines(lines, old(sh.frames), dedup.hash)
      ensures dedup.strings == InternLines(lines, old(|contexts|), old(dedup.strings), dedup.hash)
    {
      err := ReadOk;
      var i := 0;
      ghost var root, depth, frames, init := contexts[0], |contexts|, sh.frames, dedup.strings;
      ghost var touched := false;
      TracksStart(lines, depth, frames, dedup.hash);
      assert lines[0..] == lines;
      while i < |lines| && err == ReadOk
        invariant i <= |lines|
        invariant Valid() && |contexts| >= 1 && contexts[0] == root
        invariant old(nodes) <= nodes && forall n :: n in nodes ==> n in old(nodes) || fresh(n)
        invariant Tracks(lines, i, depth, frames, dedup.hash, err, |contexts|, touched, sh.frames)
        invariant TracksIntern(lines, i, depth, init, dedup.hash, err, |contexts|, dedup.strings)
        decreases |lines| - i, if err == ReadOk then 1 else 0
      {
        err, touched := ReadNext(lines, i, depth, frames, touched, init);
        i := i + 1;
      }
      TracksEnd(lines, i, depth, frames, dedup.hash, err, |contexts|, touched, sh.frames);
      if err == ReadOk {
        assert lines[i..] == [];
      }
    }

    /** One turn of ReadAll's loop: line i is read, and what is left of ReadLines and BuildLines moves past it. */
    method ReadNext(lines: seq<string>, i: nat, ghost depth: nat, ghost frames: seq<Frame>, ghost touched: bool,
                    ghost init: map<Uint32, string>)
      returns (err: ReadError, ghost touched': bool)
      requires Valid() && i < |lines|
      requires Tracks(lines, i, depth, frames, dedup.hash, ReadOk, |contexts|, touched, sh.frames)
      requires TracksIntern(lines, i, depth, init, dedup.hash, ReadOk, |contexts|, dedup.strings)
      modifies this, nodes, dedup
      ensures Valid() && |contexts| >= 1 && contexts[0] == old(contexts[0])
      ensures old(nodes) <= nodes && forall n :: n in nodes ==> n in old(nodes) || fresh(n)
      ensures Tracks(lines, i + 1, depth, frames, dedup.hash, err, |contexts|, touched', sh.frames)
      ensures TracksIntern(lines, i + 1, depth, init, dedup.hash, err, |contexts|, dedup.strings)
    {
      ReadLinesStep(lines, i, |contexts|, touched);
      BuildLinesStep(lines, i, sh.frames, dedup.hash);
      InternLinesStep(lines, i, |contexts|, dedup.strings, dedup.hash);
      ghost var o := LineSpec(lines[i], |contexts|, false);
      err := ReadLine(lines[i]);
      touched' := touched || o.touched;
    }

    /** One line of Read's loop: a line of no characters is skipped, any other is parsed. */
    method ReadLine(line: string) returns (err: ReadError)
      requires Valid()
      modifies this, nodes, dedup
      ensures Valid() && |contexts| >= 1
      ensures var o := LineSpec(line, old(|contexts|), false);
        err == o.err && |contexts| == o.depth
      ensures contexts[0] == old(contexts[0])
      ensures old(nodes) <= nodes && forall n :: n in nodes ==> n in old(nodes) || fresh(n)
      ensures sh.frames == LineBuild(line, old(sh.frames), dedup.hash)
      ensures dedup.strings == LineIntern(line, old(|contexts|), old(dedup.strings), dedup.hash)
    {
      err := ReadOk;
      if |line| > 0 {
        err := ParseLine(line);
      } else {
        EmptyLine(sh.frames, false, dedup.hash, dedup.strings);
      }
    }

    /**
     * ParseLine: runs the machine over the terms of the line, on the stack
     * and the tree. Its error code and the new depth are those of LineSpec,
     * and the frames become what LineBuild says the line stores.
     */
    method ParseLine(fileLine: string) returns (err: ReadError)
      requires Valid()
      modifies this, nodes, dedup
      ensures Valid() && |contexts| >= 1
      ensures err == LineSpec(fileLine, old(|contexts|), false).err
      ensures |contexts| == LineSpec(fileLine, old(|contexts|), false).depth
      ensures contexts[0] == old(contexts[0])
      ensures old(nodes) <= nodes && forall n :: n in nodes ==> n in old(nodes) || fresh(n)
      ensures sh.frames == LineBuild(fileLine, old(sh.frames), dedup.hash)
      ensures dedup.strings == LineIntern(fileLine, old(|contexts|), old(dedup.strings), dedup.hash)
    {
      err := ReadOk;
      var current := contexts[|contexts| - 1];
      var state := CloseOrAttrib;
      ghost var spec := LineSpec(fileLine, |contexts|, false);
      ghost var stores := LineBuild(fileLine, sh.frames, dedup.hash);
      ghost var interned := LineIntern(fileLine, |contexts|, dedup.strings, dedup.hash);
      // m_CurrentLine, what is left of the line, is the local line.
      var currTerm, termStr, line := FirstPending(fileLine, |contexts|, spec, stores, sh.frames, dedup.hash, interned, dedup.strings);
      var done := false;
      var attribName := [];
      ghost var touched := false;
      while !done
        invariant Valid() && |contexts| >= 1
        invariant current == contexts[|contexts| - 1]
        invariant contexts[0] == old(contexts[0])
        invariant old(nodes) <= nodes && forall n :: n in nodes ==> n in old(nodes) || fresh(n)
        invariant Pending(spec, stores, err, done, Token(currTerm, termStr), line, state, attribName, |contexts|, touched, sh.frames, dedup.hash)
        invariant Interning(interned, done, Token(currTerm, termStr), line, state, attribName, |contexts|, dedup.strings, dedup.hash)
        decreases |line| + (if currTerm == EndOfLine then 0 else 1), !done
      {
        err, done, state, attribName, current, touched :=
          Turn(currTerm, termStr, line, state, attribName, current, touched, spec, stores, interned);
        if !done {
          // NextTerm on what is left of the line, through Lex, the function its contract names.
          var next := Lex(line);
          currTerm, termStr, line := next.kind, next.text, next.rest;
        }
      }
    }

    /** The stack keeps the root at its bottom, and the tree only gains fresh nodes. */
    twostate predicate Grew()
      reads this
    {
      && |old(contexts)| >= 1 && |contexts| >= 1 && contexts[0] == old(contexts[0])
      && old(nodes) <= nodes && (forall n :: n in nodes ==> n in old(nodes) || fresh(n))
    }

    /**
     * One turn of ParseLine's loop: the switch on the pending term. When the
     * line goes on, what the machine comes to on the line, and what it
     * stores, are what they come to from the term NextTerm takes off the
     * rest of the line, and that rest is shorter; when the line is done,
     * nothing is left to come.
     */
    method Turn(currTerm: Term, termStr: string, line: string, state: ReadState, attribName: string,
                current: DataHierarchy, ghost touched: bool, ghost spec: Outcome, ghost stores: seq<Frame>,
                ghost interned: map<Uint32, string>)
      returns (err: ReadError, done: bool, state': ReadState, attribName': string, current': DataHierarchy,
               ghost touched': bool)
      requires Valid() && current == contexts[|contexts| - 1]
      requires spec == RunFrom(currTerm, termStr, line, state, |contexts|, touched)
      requires stores == BuildFrom(currTerm, termStr, line, state, attribName, sh.frames, dedup.hash)
      requires interned == InternFrom(currTerm, termStr, line, state, attribName, |contexts|, dedup.strings, dedup.hash)
      modifies this, nodes, dedup
      ensures Valid() && current' == contexts[|contexts| - 1] && Grew()
      ensures var next := Lex(line);
        Pending(spec, stores, err, done, Token(next.kind, next.text), next.rest, state', attribName', |contexts|, touched', sh.frames, dedup.hash)
      ensures var next := Lex(line);
        Interning(interned, done, Token(next.kind, next.text), next.rest, state', attribName', |contexts|, dedup.strings, dedup.hash)
      ensures var next := Lex(line); !done ==>
        |next.rest| + (if next.kind == EndOfLine then 0 else 1) < |line| + (if currTerm == EndOfLine then 0 else 1)
    {
      Depth();
      ghost var m := StepOf(Token(currTerm, termStr), state, |contexts|);
      TermStep(currTerm, termStr, line, state, attribName, sh.frames, touched, dedup.hash);
      InternTurn(currTerm, termStr, line, state, attribName, |contexts|, dedup.strings, dedup.hash);
      err, done, state', attribName', current' := TakeTerm(currTerm, termStr, state, attribName, current);
      touched' := touched || (m.Go? && m.setsRoot);
    }

    /**
     * The switch of ParseLine on one term: pops on `}`, remembers the
     * attribute name, and on a value or `{` sets it on the current context.
     */
    method TakeTerm(currTerm: Term, termStr: string, state: ReadState, attribName: string, current: DataHierarchy)
      returns (err: ReadError, done: bool, state': ReadState, attribName': string, current': DataHierarchy)
      requires Valid() && current == contexts[|contexts| - 1]
      modifies this, nodes, dedup
      ensures Valid() && current' == contexts[|contexts| - 1] && Grew()
      ensures var m := StepOf(Token(currTerm, termStr), state, old(|contexts|));
        && (err, done, state', |contexts|) == Report(m, state, old(|contexts|))
      ensures attribName' == NameOf(Token(currTerm, termStr), state, attribName)
      ensures sh.frames == StoreOf(Token(currTerm, termStr), state, attribName, old(sh.frames), dedup.hash)
      ensures dedup.strings == InternOf(Token(currTerm, termStr), state, attribName, old(dedup.strings), dedup.hash)
    {
      Depth();
      err, done, state', attribName', current' := ReadOk, false, state, attribName, current;
      match state
      case CloseOrAttrib =>
        err, done, state', attribName', current' := TakeName(currTerm, termStr, attribName, current);
      case ExpectEquals =>
        if currTerm == EqualsSign {
          state' := ValueOrOpen;
        } else {
          // Anything else leaves the attribute dangling.
          err := NoEquals;
          done := true;
        }
        assert contexts == old(contexts) && sh == old(sh);
      case ValueOrOpen =>
        err, done, state', current' := TakeValue(currTerm, termStr, attribName, current);
    }

    /** STATE_CLOSE_OR_ATTRIB of ParseLine's switch: `}` pops the stack, a name is remembered, and anything else ends the line. */
    method TakeName(currTerm: Term, termStr: string, attribName: string, current: DataHierarchy)
      returns (err: ReadError, done: bool, state': ReadState, attribName': string, current': DataHierarchy)
      requires Valid() && current == contexts[|contexts| - 1]
      modifies this
      ensures Valid() && current' == contexts[|contexts| - 1] && Grew()
      ensures var m := StepOf(Token(currTerm, termStr), CloseOrAttrib, old(|contexts|));
        && (err, done, state', |contexts|) == Report(m, CloseOrAttrib, old(|contexts|))
      ensures attribName' == NameOf(Token(currTerm, termStr), CloseOrAttrib, attribName)
      ensures sh.frames == StoreOf(Token(currTerm, termStr), CloseOrAttrib, attribName, old(sh.frames), dedup.hash)
    {
      err, done, state', attribName', current' := ReadOk, false, CloseOrAttrib, attribName, current;
      if currTerm == CloseStruct {
        // The top of the stack is the current context: it is never popped.
        if |contexts| > 1 {
          PopStruct();
          current' := contexts[|contexts| - 1];
        } else {
          err := ContextUnderflow;
          done := true;
        }
      } else if currTerm == AttribOrValue {
        attribName' := termStr;
        state' := ExpectEquals;
      } else {
        // A comment or the end of the line ends it quietly; anything else is an error.
        done := true;
        if currTerm == OpenStruct || currTerm == EqualsSign {
          err := MissingAttribute;
        } else if currTerm != Comment && currTerm != EndOfLine {
          err := MalformedAttribute;
        }
      }
    }

    /**
     * STATE_VALUE_OR_OPEN of ParseLine's switch: a value or `{` is set on the
     * current context under the attribute name (TakeText and TakeOpen say
     * how); anything else is ERROR_MISSING_VALUE. No other node changes.
     */
    method TakeValue(currTerm: Term, termStr: string, attribName: string, current: DataHierarchy)
      returns (err: ReadError, done: bool, state': ReadState, current': DataHierarchy)
      requires Valid() && current == contexts[|contexts| - 1]
      modifies this, current, dedup
      ensures Valid() && current' == contexts[|contexts| - 1] && Grew()
      ensures var m := StepOf(Token(currTerm, termStr), ValueOrOpen, old(|contexts|));
        && (err, done, state', |contexts|) == Report(m, ValueOrOpen, old(|contexts|))
      ensures sh.frames == StoreOf(Token(currTerm, termStr), ValueOrOpen, attribName, old(sh.frames), dedup.hash)
      ensures dedup.strings == InternOf(Token(currTerm, termStr), ValueOrOpen, attribName, old(dedup.strings), dedup.hash)
      ensures done ==> current.children == old(current.children)
    {
      if currTerm == AttribOrValue || currTerm == ValueOnly {
        current' := current;
        err, done, state' := TakeText(currTerm, termStr, attribName, current);
      } else if currTerm == OpenStruct {
        err, done := ReadOk, false;
        state', current' := TakeOpen(termStr, attribName, current);
      } else {
        err, done, state', current' := MissingValue, true, ValueOrOpen, current;
        assert contexts == old(contexts) && sh == old(sh);
      }
    }

    /** A value term in STATE_VALUE_OR_OPEN: unquoted and, when it is a whole value, set on the current context. */
    method TakeText(currTerm: Term, termStr: string, attribName: string, current: DataHierarchy)
      returns (err: ReadError, done: bool, state': ReadState)
      requires Valid() && current == contexts[|contexts| - 1]
      requires currTerm == AttribOrValue || currTerm == ValueOnly
      modifies this, current, dedup
      ensures Valid() && contexts == old(contexts) && nodes == old(nodes)
      ensures var m := StepOf(Token(currTerm, termStr), ValueOrOpen, old(|contexts|));
        && (err, done, state', |contexts|) == Report(m, ValueOrOpen, old(|contexts|))
      ensures done <==> Unquote(termStr).error != ValueOk
      ensures done ==> err == UnfinishedValue && current.children == old(current.children) && sh.frames == old(sh.frames)
      ensures !done ==>
        && err == ReadOk && state' == CloseOrAttrib
        && current.children == old(current.children)[dedup.hash(attribName) := Basic(dedup.hash(Unquote(termStr).value))]
        && sh.frames == SetTop(old(sh.frames), dedup.hash(attribName), Text(dedup.hash(Unquote(termStr).value)))
      ensures sh.frames == StoreOf(Token(currTerm, termStr), ValueOrOpen, attribName, old(sh.frames), dedup.hash)
      ensures dedup.strings == InternOf(Token(currTerm, termStr), ValueOrOpen, attribName, old(dedup.strings), dedup.hash)
    {
      ValueStep(currTerm, termStr, |contexts|);
      err, done, state' := ReadOk, false, CloseOrAttrib;
      var verr, unquotedTerm := UnquoteTerm(termStr);
      if verr == ValueOk {
        SetValue(current, attribName, unquotedTerm);
      } else {
        err, done, state' := UnfinishedValue, true, ValueOrOpen;
      }
    }

    /** A `{` in STATE_VALUE_OR_OPEN: a new struct is set on the current context and becomes the current one. */
    method TakeOpen(termStr: string, attribName: string, current: DataHierarchy) returns (state': ReadState, current': DataHierarchy)
      requires Valid() && current == contexts[|contexts| - 1]
      modifies this, current, dedup
      ensures Valid() && fresh(current') && current'.children == map[]
      ensures contexts == old(contexts) + [current'] && nodes == old(nodes) + {current'}
      ensures var m := StepOf(Token(OpenStruct, termStr), ValueOrOpen, old(|contexts|));
        && (ReadOk, false, state', |contexts|) == Report(m, ValueOrOpen, old(|contexts|))
      ensures current.children == old(current.children)[dedup.hash(attribName) := Struct(current')]
      ensures sh.frames == SetTop(old(sh.frames), dedup.hash(attribName), Nested(map[])) + [Frame(map[], dedup.hash(attribName))]
      ensures sh.frames == StoreOf(Token(OpenStruct, termStr), ValueOrOpen, attribName, old(sh.frames), dedup.hash)
      ensures dedup.strings == InternOf(Token(OpenStruct, termStr), ValueOrOpen, attribName, old(dedup.strings), dedup.hash)
    {
      ValueStep(OpenStruct, termStr, |contexts|);
      current' := PushStruct(current, attribName);
      state' := CloseOrAttrib;
    }

    /** The value half of ParseLine's STATE_VALUE_OR_OPEN: Set on the current context. */
    method SetValue(current: DataHierarchy, attribName: string, value: string)
      requires Valid() && current == contexts[|contexts| - 1]
      modifies this, current, dedup
      ensures Valid() && contexts == old(contexts) && nodes == old(nodes)
      ensures current.children == old(current.children)[dedup.hash(attribName) := Basic(dedup.hash(value))]
      ensures sh.frames == SetTop(old(sh.frames), dedup.hash(attribName), Text(dedup.hash(value)))
      ensures dedup.strings == old(dedup.strings)[dedup.hash(attribName) := attribName][dedup.hash(value) := value]
    {
      ghost var k, x := dedup.hash(attribName), dedup.hash(value);
      var _ := current.SetBasic(attribName, value, dedup);
      ghost var tree := sh.tree;
      sh := InvSet(contexts, sh, k, x);
      assert sh.tree == tree[current := current.children];
      forall n | n in nodes
        ensures n.children == sh.tree[n]
      {
        if n != current {
          assert n.children == old(n.children) == tree[n];
        }
      }
    }

    /** The `{` half of ParseLine's STATE_VALUE_OR_OPEN: a new empty node, set on the current context and pushed. */
    method PushStruct(current: DataHierarchy, attribName: string) returns (newStruct: DataHierarchy)
      requires Valid() && current == contexts[|contexts| - 1]
      modifies this, current, dedup
      ensures Valid()
      ensures fresh(newStruct) && newStruct.children == map[]
      ensures contexts == old(contexts) + [newStruct]
      ensures nodes == old(nodes) + {newStruct}
      ensures current.children == old(current.children)[dedup.hash(attribName) := Struct(newStruct)]
      ensures sh.frames == SetTop(old(sh.frames), dedup.hash(attribName), Nested(map[])) + [Frame(map[], dedup.hash(attribName))]
      ensures dedup.strings == old(dedup.strings)[dedup.hash(attribName) := attribName]
    {
      newStruct := new DataHierarchy();
      var _ := current.SetStruct(attribName, newStruct, dedup);
      ghost var tree: map<DataHierarchy, map<Uint32, DataValue>> := sh.tree;
      sh := InvPush(contexts, sh, dedup.hash(attribName), newStruct);
      assert sh.tree == tree[current := current.children][newStruct := map[]];
      nodes := nodes + {newStruct};
      contexts := contexts + [newStruct];
      forall n | n in nodes
        ensures n.children == sh.tree[n]
      {
        if n != newStruct && n != current {
          assert n.children == old(n.children) == tree[n];
        }
      }
    }

    /** The `}` half of STATE_CLOSE_OR_ATTRIB: the top node is popped, and what it holds is closed. */
    method PopStruct()
      requires Valid() && |contexts| > 1
      modifies this
      ensures Valid() && nodes == old(nodes)
      ensures contexts == old(contexts)[..|old(contexts)| - 1]
      ensures sh.frames == CloseTop(old(sh.frames))
    {
      sh := InvPop(contexts, sh);
      contexts := contexts[..|contexts| - 1];
    }
  }

  /**
   * Reading the lines from i on reads line i first, from the depth reached
   * and with nothing set on the root yet, and goes on only if it gives no error.
   */
  lemma {:induction false} ReadLinesStep(lines: seq<string>, i: nat, depth: nat, touched: bool)
    requires i < |lines| && depth >= 1
    ensures var o := LineSpec(lines[i], depth, false);
      ReadLines(lines[i..], depth, touched) ==
        if o.err != ReadOk then Outcome(o.err, o.depth, touched || o.touched)
        else ReadLines(lines[i + 1..], o.depth, touched || o.touched)
  {
    assert lines[i..][0] == lines[i];
    assert lines[i..][1..] == lines[i + 1..];
    LineLifted(lines[i], depth, touched);
  }

  /**
   * Where the loop of Read stands after i lines, from depth and frames: the
   * stack is as deep as the frames, and either no line has failed and the
   * rest of the file gives what the whole does, or the outcome is final.
   */
  ghost predicate Tracks(lines: seq<string>, i: nat, depth: nat, frames: seq<Frame>, hash: string -> Uint32,
                         err: ReadError, d: nat, touched: bool, stack: seq<Frame>)
  {
    && i <= |lines| && depth >= 1 && |frames| >= 1 && d >= 1 && |stack| >= 1
    && (err == ReadOk ==> ReadLines(lines, depth, false) == ReadLines(lines[i..], d, touched)
                          && BuildLines(lines, frames, hash) == BuildLines(lines[i..], stack, hash))
    && (err != ReadOk ==> ReadLines(lines, depth, false) == Outcome(err, d, touched)
                          && BuildLines(lines, frames, hash) == stack)
  }

  /** The same for what the lines store in the interner, from the table init. */
  ghost predicate TracksIntern(lines: seq<string>, i: nat, depth: nat, init: map<Uint32, string>, hash: string -> Uint32,
                               err: ReadError, d: nat, strings: map<Uint32, string>)
  {
    && i <= |lines| && depth >= 1 && d >= 1
    && (err == ReadOk ==> InternLines(lines, depth, init, hash) == InternLines(lines[i..], d, strings, hash))
    && (err != ReadOk ==> InternLines(lines, depth, init, hash) == strings)
  }

  /** Before any line is read, the rest of the file is all of it. */
  lemma {:induction false} TracksStart(lines: seq<string>, depth: nat, frames: seq<Frame>, hash: string -> Uint32)
    requires depth >= 1 && |frames| >= 1
    ensures Tracks(lines, 0, depth, frames, hash, ReadOk, depth, false, frames)
  {
    assert lines[0..] == lines;
  }

  /** When the reading stops, at the end of the file or at an error, the file's outcome and frames are those reached. */
  lemma {:induction false} TracksEnd(lines: seq<string>, i: nat, depth: nat, frames: seq<Frame>, hash: string -> Uint32,
                                     err: ReadError, d: nat, touched: bool, stack: seq<Frame>)
    requires Tracks(lines, i, depth, frames, hash, err, d, touched, stack)
    requires i == |lines| || err != ReadOk
    ensures ReadLines(lines, depth, false) == Outcome(err, d, touched)
    ensures BuildLines(lines, frames, hash) == stack
  {
    if err == ReadOk {
      assert lines[i..] == [];
    }
  }

  /** An empty line reads as a blank one: no error, and nothing changes or is stored. */
  lemma {:induction false} EmptyLine(stack: seq<Frame>, touched: bool, hash: string -> Uint32, strings: map<Uint32, string>)
    requires |stack| >= 1
    ensures LineSpec([], |stack|, touched) == Outcome(ReadOk, |stack|, touched)
    ensures LineBuild([], stack, hash) == stack
    ensures LineIntern([], |stack|, strings, hash) == strings
  {
    LexBlank([]);
  }

  /**
   * Reading the lines from i on stores what line i stores first, and goes on
   * from there only if that line gives no error.
   */
  lemma {:induction false} BuildLinesStep(lines: seq<string>, i: nat, stack: seq<Frame>, hash: string -> Uint32)
    requires i < |lines| && |stack| >= 1
    ensures BuildLines(lines[i..], stack, hash) ==
      if LineSpec(lines[i], |stack|, false).err != ReadOk then LineBuild(lines[i], stack, hash)
      else BuildLines(lines[i + 1..], LineBuild(lines[i], stack, hash), hash)
  {
    assert lines[i..][0] == lines[i];
    assert lines[i..][1..] == lines[i + 1..];
  }

  /**
   * Reading the lines from i on stores in the interner what line i stores
   * first, and goes on from there only if that line gives no error.
   */
  lemma {:induction false} InternLinesStep(lines: seq<string>, i: nat, depth: nat, strings: map<Uint32, string>,
                                           hash: string -> Uint32)
    requires i < |lines| && depth >= 1
    ensures var o := LineSpec(lines[i], depth, false); var s := LineIntern(lines[i], depth, strings, hash);
      InternLines(lines[i..], depth, strings, hash) ==
        if o.err != ReadOk then s else InternLines(lines[i + 1..], o.depth, s, hash)
  {
    assert lines[i..][0] == lines[i];
    assert lines[i..][1..] == lines[i + 1..];
  }

  /** Every frame above the bottom one is filed in the frame below it, under its key. */
  ghost predicate Filed(stack: seq<Frame>)
  {
    forall i :: 0 < i < |stack| ==> stack[i].key in stack[i - 1].attrs
  }

  /** The bottom frame, the root's, has an attribute. */
  ghost predicate RootSet(stack: seq<Frame>)
  {
    |stack| >= 1 && stack[0].attrs != map[]
  }

  /**
   * What one term stores keeps every open frame filed below, and gives the
   * root an attribute exactly when the step sets one on it: a `}` at depth 2
   * stores the closed content under a key the root already has.
   */
  lemma {:induction false} StoreRoot(cur: Token, st: ReadState, name: string, stack: seq<Frame>, hash: string -> Uint32)
    requires |stack| >= 1 && Filed(stack)
    ensures var m := StepOf(cur, st, |stack|); var s := StoreOf(cur, st, name, stack, hash);
      Filed(s) && (RootSet(s) <==> RootSet(stack) || (m.Go? && m.setsRoot))
  {
    var t := |stack| - 1;
    var s := StoreOf(cur, st, name, stack, hash);
    if st == CloseOrAttrib && cur.kind == CloseStruct && |stack| > 1 {
      // The `{` that opened the top frame filed its key in the frame below.
      assert stack[t].key in stack[t - 1].attrs;
      assert s == SetTop(stack[..t], stack[t].key, Nested(stack[t].attrs));
      assert stack[t].key in s[t - 1].attrs;
      assert forall i :: 0 <= i < t ==> s[i].key == stack[i].key && stack[i].attrs.Keys <= s[i].attrs.Keys;
    } else if st == ValueOrOpen && (cur.kind == AttribOrValue || cur.kind == ValueOnly) && Unquote(cur.text).error == ValueOk {
      var k := hash(name);
      assert s == SetTop(stack, k, Text(hash(Unquote(cur.text).value)));
      assert k in s[t].attrs;
      assert forall i :: 0 <= i < |s| ==> s[i].key == stack[i].key && stack[i].attrs.Keys <= s[i].attrs.Keys;
    } else if st == ValueOrOpen && cur.kind == OpenStruct {
      var k := hash(name);
      assert s == SetTop(stack, k, Nested(map[])) + [Frame(map[], k)];
      assert k in s[t].attrs;
      assert forall i :: 0 <= i <= t ==> s[i].key == stack[i].key && stack[i].attrs.Keys <= s[i].attrs.Keys;
    }
  }

  /**
   * The stack of frames a line leaves is as deep as the context stack the
   * machine leaves; on a filed stack, the root has an attribute afterwards
   * exactly when the machine says one was set on it.
   */
  lemma {:induction false} BuildTextDepth(line: string, st: ReadState, name: string, stack: seq<Frame>,
                                          hash: string -> Uint32, touched: bool)
    requires |stack| >= 1
    ensures var b := BuildText(line, st, name, stack, hash); var o := RunText(line, st, |stack|, touched);
      && |b| == o.depth
      && (Filed(stack) && (touched <==> RootSet(stack)) ==> Filed(b) && (o.touched <==> RootSet(b)))
    decreases |line|, 1
  {
    var x := Lex(line);
    LexShrinks(line);
    BuildFromDepth(x.kind, x.text, x.rest, st, name, stack, hash, touched);
  }

  lemma {:induction false} BuildFromDepth(kind: Term, text: string, rest: string, st: ReadState, name: string,
                                          stack: seq<Frame>, hash: string -> Uint32, touched: bool)
    requires |stack| >= 1
    ensures var b := BuildFrom(kind, text, rest, st, name, stack, hash); var o := RunFrom(kind, text, rest, st, |stack|, touched);
      && |b| == o.depth
      && (Filed(stack) && (touched <==> RootSet(stack)) ==> Filed(b) && (o.touched <==> RootSet(b)))
    decreases |rest| + (if kind == EndOfLine then 0 else 1), 0
  {
    var cur := Token(kind, text);
    var m := StepOf(cur, st, |stack|);
    if m.Go? {
      if Filed(stack) {
        StoreRoot(cur, st, name, stack, hash);
      }
      BuildTextDepth(rest, m.next, NameOf(cur, st, name), StoreOf(cur, st, name, stack, hash), hash, touched || m.setsRoot);
    }
  }

  /**
   * A file's stores leave as many frames as Read's loop leaves contexts; on a
   * filed stack, the root has an attribute afterwards exactly when the loop
   * says one was set on it.
   */
  lemma {:induction false} BuildLinesDepth(lines: seq<string>, stack: seq<Frame>, hash: string -> Uint32, touched: bool)
    requires |stack| >= 1
    ensures var b := BuildLines(lines, stack, hash); var o := ReadLines(lines, |stack|, touched);
      && |b| == o.depth
      && (Filed(stack) && (touched <==> RootSet(stack)) ==> Filed(b) && (o.touched <==> RootSet(b)))
    decreases |lines|
  {
    if lines != [] {
      var s := LineBuild(lines[0], stack, hash);
      BuildTextDepth(Trim(lines[0]), CloseOrAttrib, [], stack, hash, touched);
      LineLifted(lines[0], |stack|, touched);
      if LineSpec(lines[0], |stack|, false).err == ReadOk {
        BuildLinesDepth(lines[1..], s, hash, LineSpec(lines[0], |stack|, touched).touched);
      }
    }
  }

  // ---------------------------------------------------------------------------
  // The open and closed nodes keep matching what the lines store.
  // ---------------------------------------------------------------------------

  /** Closing a node adds its content to docs; what matched before still matches. */
  lemma {:induction false} AgreeGrow(kids: map<Uint32, DataValue>, attrs: map<Uint32, Item>, docs: map<DataHierarchy, map<Uint32, Item>>,
                  c: DataHierarchy, d: map<Uint32, Item>)
    requires Agree(kids, attrs, docs) && c !in docs
    ensures Agree(kids, attrs, docs[c := d])
  {
    forall k | k in kids
      ensures Agrees(kids[k], attrs[k], docs[c := d])
    {
      assert Agrees(kids[k], attrs[k], docs);
    }
  }

  lemma {:induction false} AgreeOpenGrow(kids: map<Uint32, DataValue>, attrs: map<Uint32, Item>, docs: map<DataHierarchy, map<Uint32, Item>>,
                      key: Uint32, child: DataHierarchy, c: DataHierarchy, d: map<Uint32, Item>)
    requires AgreeOpen(kids, attrs, docs, key, child) && c !in docs
    ensures AgreeOpen(kids, attrs, docs[c := d], key, child)
  {
    forall k | k in kids && k != key
      ensures Agrees(kids[k], attrs[k], docs[c := d])
    {
      assert Agrees(kids[k], attrs[k], docs);
    }
  }

  /** Below the top, nothing depends on the top's attributes, nor on the top frame's content (only on its key). */
  lemma {:induction false} BelowTop(kids: seq<map<Uint32, DataValue>>, ctx: seq<DataHierarchy>, frames: seq<Frame>,
                 docs: map<DataHierarchy, map<Uint32, Item>>, kids': seq<map<Uint32, DataValue>>, frames': seq<Frame>)
    requires |ctx| == |kids| && |frames| == |kids| && |kids'| == |kids| && |frames'| == |kids| && |kids| >= 1
    requires Below(kids, ctx, frames, docs)
    requires kids'[..|kids| - 1] == kids[..|kids| - 1] && frames'[..|kids| - 1] == frames[..|kids| - 1]
    requires frames'[|kids| - 1].key == frames[|kids| - 1].key
    ensures Below(kids', ctx, frames', docs)
  {
    var t := |kids| - 1;
    if t > 0 {
      assert kids'[t - 1] == kids'[..t][t - 1] && kids[t - 1] == kids[..t][t - 1];
      assert frames'[t - 1] == frames'[..t][t - 1] && frames[t - 1] == frames[..t][t - 1];
      assert OpenLevel(kids, ctx, frames, docs, t - 1);
    }
  }

  /** Closing a node keeps the open nodes below matching. */
  lemma {:induction false} BelowGrow(kids: seq<map<Uint32, DataValue>>, ctx: seq<DataHierarchy>, frames: seq<Frame>,
                                     docs: map<DataHierarchy, map<Uint32, Item>>, c: DataHierarchy, d: map<Uint32, Item>)
    requires |ctx| == |kids| && |frames| == |kids| && c !in docs
    requires Below(kids, ctx, frames, docs)
    ensures Below(kids, ctx, frames, docs[c := d])
    decreases |kids|
  {
    var n := |kids|;
    if n > 1 {
      BelowGrow(kids[..n - 1], ctx[..n - 1], frames[..n - 1], docs, c, d);
      AgreeOpenGrow(kids[n - 2], frames[n - 2].attrs, docs, frames[n - 1].key, ctx[n - 1], c, d);
    }
  }

  /** A BASIC value set on the top node matches the text set on the top frame. */
  lemma {:induction false} StackSet(kids: seq<map<Uint32, DataValue>>, ctx: seq<DataHierarchy>, frames: seq<Frame>,
                 docs: map<DataHierarchy, map<Uint32, Item>>, k: Uint32, x: Uint32)
    requires StackAgrees(kids, ctx, frames, docs)
    ensures var top: map<Uint32, DataValue> := kids[|kids| - 1][k := Basic(x)];
      StackAgrees(kids[|kids| - 1 := top], ctx, SetTop(frames, k, Text(x)), docs)
  {
    var t := |kids| - 1;
    var top: map<Uint32, DataValue> := kids[t][k := Basic(x)];
    var kids', frames' := kids[t := top], SetTop(frames, k, Text(x));
    BelowTop(kids, ctx, frames, docs, kids', frames');
    assert Agree(kids'[t], frames'[t].attrs, docs) by {
      assert Agrees(Basic(x), Text(x), docs);
    }
  }

  /** A new empty node set and pushed on top matches the empty frame opened under its key. */
  lemma {:induction false} StackPush(kids: seq<map<Uint32, DataValue>>, ctx: seq<DataHierarchy>, frames: seq<Frame>,
                  docs: map<DataHierarchy, map<Uint32, Item>>, k: Uint32, n: DataHierarchy)
    requires StackAgrees(kids, ctx, frames, docs)
    ensures var top: map<Uint32, DataValue> := kids[|kids| - 1][k := Struct(n)];
      StackAgrees(kids[|kids| - 1 := top] + [map[]], ctx + [n], SetTop(frames, k, Nested(map[])) + [Frame(map[], k)], docs)
  {
    var t := |kids| - 1;
    var top: map<Uint32, DataValue> := kids[t][k := Struct(n)];
    var kids' := kids[t := top] + [map[]];
    var frames' := SetTop(frames, k, Nested(map[])) + [Frame(map[], k)];
    var ctx' := ctx + [n];
    BelowTop(kids, ctx, frames, docs, kids'[..t + 1], frames'[..t + 1]);
    assert kids'[..t + 1][..t + 1] == kids'[..t + 1] && ctx'[..t + 1] == ctx;
    assert OpenLevel(kids', ctx', frames', docs, t);
  }

  /**
   * Closing the top node: once docs gives it the top frame's content, the
   * node matches that content, and the stack below matches the frames with
   * the content stored under the node's key.
   */
  lemma {:induction false} StackClose(kids: seq<map<Uint32, DataValue>>, ctx: seq<DataHierarchy>, frames: seq<Frame>,
                   docs: map<DataHierarchy, map<Uint32, Item>>)
    requires StackAgrees(kids, ctx, frames, docs) && |ctx| >= 2 && ctx[|ctx| - 1] !in docs
    ensures var t := |ctx| - 1; var docs' := docs[ctx[t] := frames[t].attrs];
      && StackAgrees(kids[..t], ctx[..t], CloseTop(frames), docs')
      && Agree(kids[t], frames[t].attrs, docs')
  {
    var t := |ctx| - 1;
    var c := ctx[t];
    var docs' := docs[c := frames[t].attrs];
    var frames' := CloseTop(frames);
    AgreeGrow(kids[t], frames[t].attrs, docs, c, frames[t].attrs);
    assert kids[..t][..t] == kids[..t] && ctx[..t][..t] == ctx[..t] && frames[..t][..t] == frames[..t];
    BelowGrow(kids[..t], ctx[..t], frames[..t], docs, c, frames[t].attrs);
    BelowTop(kids[..t], ctx[..t], frames[..t], docs', kids[..t], frames');
    assert OpenLevel(kids, ctx, frames, docs, t - 1);
    AgreeOpenGrow(kids[t - 1], frames[t - 1].attrs, docs, frames[t].key, c, c, frames[t].attrs);
    assert Agrees(Struct(c), Nested(frames[t].attrs), docs');
    assert Agree(kids[t - 1], frames'[t - 1].attrs, docs');
  }

  /** A fresh root, alone on the stack with nothing stored, meets the invariant. */
  lemma {:induction false} InvStart(root: DataHierarchy) returns (sh: Shadow)
    ensures sh == Shadow(map[root := map[]], map[root := 0], 1, [map[]], [Frame(map[], 0)], map[])
    ensures Inv([root], sh)
  {
    sh := Shadow(map[root := map[]], map[root := 0], 1, [map[]], [Frame(map[], 0)], map[]);
    assert NodeRanked(root, sh.tree, sh.rank, sh.next);
  }

  /** Setting a value on node p keeps the tree ranked, when a STRUCT value refers to a node ranked above p. */
  lemma {:induction false} RankedSet(tree: map<DataHierarchy, map<Uint32, DataValue>>, rank: map<DataHierarchy, nat>, next: nat,
                  p: DataHierarchy, k: Uint32, v: DataValue)
    requires TreeRanked(tree, rank, next) && p in tree && p in rank
    requires v.Struct? ==> v.node != null && v.node in tree && v.node in rank && rank[v.node] > rank[p]
    ensures var top: map<Uint32, DataValue> := tree[p][k := v]; TreeRanked(tree[p := top], rank, next)
  {
    var top: map<Uint32, DataValue> := tree[p][k := v];
    var tree' := tree[p := top];
    forall n | n in tree'
      ensures NodeRanked(n, tree', rank, next)
    {
      assert NodeRanked(n, tree, rank, next);
      if n == p {
        ClimbsSet(tree[n], rank[n], k, v, tree.Keys, rank);
      }
    }
  }

  /** A new node with no attributes, ranked next, keeps the tree ranked. */
  lemma {:induction false} RankedAdd(tree: map<DataHierarchy, map<Uint32, DataValue>>, rank: map<DataHierarchy, nat>, next: nat, n: DataHierarchy)
    requires TreeRanked(tree, rank, next) && n !in tree
    ensures TreeRanked(tree[n := map[]], rank[n := next], next + 1)
  {
    var tree', rank' := tree[n := map[]], rank[n := next];
    forall m | m in tree'
      ensures NodeRanked(m, tree', rank', next + 1)
    {
      if m != n {
        assert NodeRanked(m, tree, rank, next);
        ClimbsGrow(tree[m], rank[m], tree.Keys, rank, tree'.Keys, rank');
      }
    }
  }

  /** Changing the attributes of a node that is not closed keeps the closed ones matching. */
  lemma {:induction false} ClosedSet(tree: map<DataHierarchy, map<Uint32, DataValue>>, docs: map<DataHierarchy, map<Uint32, Item>>,
                  p: DataHierarchy, kids: map<Uint32, DataValue>)
    requires ClosedMatch(tree, docs) && p !in docs
    ensures ClosedMatch(tree[p := kids], docs)
  {
    forall c | c in docs
      ensures ClosedIn(c, tree[p := kids], docs)
    {
      assert ClosedIn(c, tree, docs);
    }
  }

  /** Setting a BASIC value on the top node keeps the invariant, with the text set on the top frame. */
  lemma {:induction false} InvSet(ctx: seq<DataHierarchy>, sh: Shadow, k: Uint32, x: Uint32) returns (sh': Shadow)
    requires Inv(ctx, sh)
    ensures var t := |ctx| - 1; var top: map<Uint32, DataValue> := sh.tree[ctx[t]][k := Basic(x)];
      sh' == sh.(tree := sh.tree[ctx[t] := top], kids := sh.kids[t := top], frames := SetTop(sh.frames, k, Text(x)))
    ensures Inv(ctx, sh')
  {
    var t := |ctx| - 1;
    var top: map<Uint32, DataValue> := sh.tree[ctx[t]][k := Basic(x)];
    sh' := sh.(tree := sh.tree[ctx[t] := top], kids := sh.kids[t := top], frames := SetTop(sh.frames, k, Text(x)));
    StackSet(sh.kids, ctx, sh.frames, sh.docs, k, x);
    assert NodeRanked(ctx[t], sh.tree, sh.rank, sh.next);
    RankedSet(sh.tree, sh.rank, sh.next, ctx[t], k, Basic(x));
    ClosedSet(sh.tree, sh.docs, ctx[t], top);
  }

  /** Setting a fresh empty node on the top node and pushing it keeps the invariant, with the frame opened under its key. */
  lemma {:induction false} InvPush(ctx: seq<DataHierarchy>, sh: Shadow, k: Uint32, n: DataHierarchy) returns (sh': Shadow)
    requires Inv(ctx, sh) && n !in sh.tree
    ensures var t := |ctx| - 1; var top: map<Uint32, DataValue> := sh.tree[ctx[t]][k := Struct(n)];
      sh' == Shadow(sh.tree[ctx[t] := top][n := map[]], sh.rank[n := sh.next], sh.next + 1,
                    sh.kids[t := top] + [map[]], SetTop(sh.frames, k, Nested(map[])) + [Frame(map[], k)], sh.docs)
    ensures Inv(ctx + [n], sh')
  {
    var t := |ctx| - 1;
    var p := ctx[t];
    var top: map<Uint32, DataValue> := sh.tree[p][k := Struct(n)];
    sh' := Shadow(sh.tree[p := top][n := map[]], sh.rank[n := sh.next], sh.next + 1,
                  sh.kids[t := top] + [map[]], SetTop(sh.frames, k, Nested(map[])) + [Frame(map[], k)], sh.docs);
    StackPush(sh.kids, ctx, sh.frames, sh.docs, k, n);
    assert NodeRanked(p, sh.tree, sh.rank, sh.next);
    RankedPush(sh.tree, sh.rank, sh.next, p, k, n);
    // A node outside the tree is not closed, so docs has no content for it.
    assert !ClosedIn(n, sh.tree, sh.docs);
    ClosedPush(sh.tree, sh.docs, p, top, n);
    OpenPush(ctx, sh.kids, sh.tree, sh.docs, top, n);
  }

  /** A fresh node, ranked next and set on p under k, keeps every edge climbing. */
  lemma {:induction false} RankedPush(tree: map<DataHierarchy, map<Uint32, DataValue>>, rank: map<DataHierarchy, nat>, next: nat,
                                      p: DataHierarchy, k: Uint32, n: DataHierarchy)
    requires TreeRanked(tree, rank, next) && p in tree && p in rank && n !in tree
    ensures var top: map<Uint32, DataValue> := tree[p][k := Struct(n)];
      TreeRanked(tree[p := top][n := map[]], rank[n := next], next + 1)
  {
    var grown := tree[n := map[]];
    assert NodeRanked(p, tree, rank, next);
    RankedAdd(tree, rank, next, n);
    RankedSet(grown, rank[n := next], next + 1, p, k, Struct(n));
    var top: map<Uint32, DataValue> := tree[p][k := Struct(n)];
    assert grown[p := grown[p][k := Struct(n)]] == tree[p := top][n := map[]];
  }

  /** The closed nodes still match their content when an open node p gets new attributes and a node outside docs is added. */
  lemma {:induction false} ClosedPush(tree: map<DataHierarchy, map<Uint32, DataValue>>, docs: map<DataHierarchy, map<Uint32, Item>>,
                                      p: DataHierarchy, top: map<Uint32, DataValue>, n: DataHierarchy)
    requires ClosedMatch(tree, docs) && p !in docs && n !in docs
    ensures ClosedMatch(tree[p := top][n := map[]], docs)
  {
    ClosedSet(tree, docs, p, top);
    ClosedSet(tree[p := top], docs, n, map[]);
  }

  /** A new node, set on the top open node and pushed, leaves the open nodes distinct and listed. */
  lemma {:induction false} OpenPush(ctx: seq<DataHierarchy>, kids: seq<map<Uint32, DataValue>>, tree: map<DataHierarchy, map<Uint32, DataValue>>,
                 docs: map<DataHierarchy, map<Uint32, Item>>, top: map<Uint32, DataValue>, n: DataHierarchy)
    requires OpenNodes(ctx, kids, tree, docs) && n !in tree && n !in docs
    ensures var t := |ctx| - 1;
      OpenNodes(ctx + [n], kids[t := top] + [map[]], tree[ctx[t] := top][n := map[]], docs)
  {
    var t := |ctx| - 1;
    var ctx', kids', tree' := ctx + [n], kids[t := top] + [map[]], tree[ctx[t] := top][n := map[]];
    forall i | 0 <= i < |ctx'|
      ensures ctx'[i] in tree' && ctx'[i] !in docs && kids'[i] == tree'[ctx'[i]]
    {
      if i < t {
        assert ctx'[i] == ctx[i] != ctx[t];
      }
    }
  }

  /** Popping the top node keeps the invariant, once docs gives it the top frame's content. */
  lemma {:induction false} InvPop(ctx: seq<DataHierarchy>, sh: Shadow) returns (sh': Shadow)
    requires Inv(ctx, sh) && |ctx| >= 2
    ensures var t := |ctx| - 1;
      sh' == sh.(kids := sh.kids[..t], frames := CloseTop(sh.frames), docs := sh.docs[ctx[t] := sh.frames[t].attrs])
    ensures Inv(ctx[..|ctx| - 1], sh')
  {
    var t := |ctx| - 1;
    var c := ctx[t];
    sh' := sh.(kids := sh.kids[..t], frames := CloseTop(sh.frames), docs := sh.docs[c := sh.frames[t].attrs]);
    StackClose(sh.kids, ctx, sh.frames, sh.docs);
    forall d | d in sh'.docs
      ensures ClosedIn(d, sh.tree, sh'.docs)
    {
      if d != c {
        assert ClosedIn(d, sh.tree, sh.docs);
        AgreeGrow(sh.tree[d], sh.docs[d], sh.docs, c, sh.frames[t].attrs);
      }
    }
  }

  /**
   * How a line's first term decides it: `{` or `=` where an attribute belongs
   * is an error, so is a VALUE_ONLY word, and a comment line changes nothing.
   */
  lemma {:induction false} LeadingTermErrors(line: string, depth: nat, touched: bool)
    requires depth >= 1 && Trim(line) != []
    ensures Trim(line)[0] == '{' || Trim(line)[0] == '=' ==>
      LineSpec(line, depth, touched) == Outcome(MissingAttribute, depth, touched)
    ensures Trim(line)[0] == '#' ==> LineSpec(line, depth, touched) == Outcome(ReadOk, depth, touched)
    ensures Lex(line).kind == ValueOnly ==> LineSpec(line, depth, touched) == Outcome(MalformedAttribute, depth, touched)
  {
    var t := Trim(line);
    TrimTwice(line);
    LexOfTrim(t, line);
    LexPunctuation(t);
    assert LineSpec(line, depth, touched) == RunFrom(Lex(t).kind, Lex(t).text, Lex(t).rest, CloseOrAttrib, depth, touched);
  }

  /** A pair must be complete on one line: a name alone is missing its `=`. */
  lemma {:induction false} DanglingName(name: string, depth: nat, touched: bool)
    requires depth >= 1 && PlainWord(name)
    ensures LineSpec(name, depth, touched) == Outcome(NoEquals, depth, touched)
  {
    TrimmedAlready(name);
    LexPlain(name, []);
    assert name + [] == name;
    LexBlank([]);
    assert RunText([], ExpectEquals, depth, touched) == Outcome(NoEquals, depth, touched);
    assert RunText(name, CloseOrAttrib, depth, touched) == RunFrom(AttribOrValue, name, [], CloseOrAttrib, depth, touched);
  }

  /** A name and `=` with nothing after them on the line are missing their value. */
  lemma {:induction false} DanglingEquals(name: string, depth: nat, touched: bool)
    requires depth >= 1 && PlainWord(name)
    ensures LineSpec(name + " =", depth, touched) == Outcome(MissingValue, depth, touched)
  {
    TrimmedAlready(name + " =");
    LexPlain(name, " =");
    EqualsAlone(depth, touched);
    assert RunText(name + " =", CloseOrAttrib, depth, touched) == RunFrom(AttribOrValue, name, " =", CloseOrAttrib, depth, touched);
  }

  /** `=` at the end of a line leaves the value missing. */
  lemma {:induction false} EqualsAlone(depth: nat, touched: bool)
    requires depth >= 1
    ensures RunText(" =", ExpectEquals, depth, touched) == Outcome(MissingValue, depth, touched)
  {
    LeadingSpace("=");
    TrimmedAlready("=");
    LexPunctuation("=");
    LexBlank([]);
    assert RunText([], ValueOrOpen, depth, touched) == Outcome(MissingValue, depth, touched);
    assert RunText(" =", ExpectEquals, depth, touched) == RunFrom(EqualsSign, "=", [], ExpectEquals, depth, touched);
  }

  /** Whether a line sets a value on the root does not depend on what happened before it. */
  lemma {:induction false} LineLifted(line: string, depth: nat, touched: bool)
    requires depth >= 1
    ensures var b := LineSpec(line, depth, false);
      LineSpec(line, depth, touched) == Outcome(b.err, b.depth, touched || b.touched)
  {
    TextTouched(Trim(line), CloseOrAttrib, depth, touched);
  }

  /** The same, for the machine on what is left of a line. */
  lemma {:induction false} TextTouched(line: string, st: ReadState, depth: nat, touched: bool)
    requires depth >= 1
    ensures var a, b := RunText(line, st, depth, touched), RunText(line, st, depth, false);
      a.err == b.err && a.depth == b.depth && a.touched == (touched || b.touched)
    decreases |line|, 1
  {
    var x := Lex(line);
    LexShrinks(line);
    FromTouched(x.kind, x.text, x.rest, st, depth, touched);
  }

  lemma {:induction false} FromTouched(kind: Term, text: string, rest: string, st: ReadState, depth: nat, touched: bool)
    requires depth >= 1
    ensures var a, b := RunFrom(kind, text, rest, st, depth, touched), RunFrom(kind, text, rest, st, depth, false);
      a.err == b.err && a.depth == b.depth && a.touched == (touched || b.touched)
    decreases |rest| + (if kind == EndOfLine then 0 else 1), 0
  {
    var m := StepOf(Token(kind, text), st, depth);
    if m.Go? {
      TextTouched(rest, m.next, m.depth, touched || m.setsRoot);
      TextTouched(rest, m.next, m.depth, m.setsRoot);
    }
  }
}
