/**
 * The journal: a text file of checksummed lines, each holding `path = value`
 * pairs meant for the data files registered with a DataFileTracker. A line
 * is checked, its pairs are gathered into a map of pending updates, the
 * paths are validated against the registry, and the journal stops at its
 * first bad line.
 */
module Journal {
  import opened QtText
  import opened Ordering
  import opened StringUtils
  import opened Hierarchy
  import opened Tracking

  /** JournalParser::Error. */
  datatype JournalError =
    | JournalOk
    | MissingChecksum
    | BadChecksum
    | MissingValue
    | UnfinishedValue
    | MalformedAttribute
    | MissingAttribute
    | NoEquals
    | FileIdNotFound
    | StructRedefinition
    | UnknownTerm

  /** What ChecksumLine gives back: the error, the line as it leaves it, and the checksum value. */
  datatype Checked = Checked(err: JournalError, line: string, value: Uint16)

  /** The term loop's result: the line's error and the updates left pending. */
  datatype Parsed = Parsed(err: JournalError, pending: map<string, string>)

  /** Process over some lines: the error it stops with, the lines counted, the updates left pending. */
  datatype Run = Run(err: JournalError, linesRead: nat, pending: map<string, string>)

  /** The key CacheUpdate files a path under: lower-cased, then trimmed. */
  function PathKey(path: string): string
  {
    Trim(ToLower(path))
  }

  /**
   * The term loop of ParseLine from some point of the line. A word, `=` and
   * a word (VALUE_ONLY or not) make a pending update with the value as it was
   * written; the last update of a key wins. Anything else records its error
   * and the loop reads on, so the line reports the last error it met. The
   * end of the line stops the loop.
   */
  function Scan(line: string, err: JournalError, pending: map<string, string>): Parsed
    decreases |line|
  {
    var a := Lex(line);
    LexShrinks(line);
    LexShrinks(a.rest);
    if a.kind == EndOfLine then Parsed(err, pending)
    else if a.kind != AttribOrValue then Scan(a.rest, MissingAttribute, pending)
    else
      var b := Lex(a.rest);
      LexShrinks(b.rest);
      if b.kind != EqualsSign then Scan(b.rest, NoEquals, pending)
      else
        var c := Lex(b.rest);
        if c.kind == AttribOrValue || c.kind == ValueOnly then Scan(c.rest, err, pending[PathKey(a.text) := c.text])
        else Scan(c.rest, MissingValue, pending)
  }

  /** A file id the registry knows, with a tree: what DataFileTracker::Hierarchy finds. */
  predicate KnownFile(tracker: DataFileTracker?, id: string)
    reads tracker
  {
    tracker != null && tracker.Hierarchy(id) != null
  }

  /** The check CheckUpdates makes of one key has no answer for STRUCT_REDEFINITION (see ExistingStructAttribute). */
  function ExistingStructAttribute(attribPath: seq<string>): (r: bool)
    ensures !r
  {
    false
  }

  /** The last check of a key, made once its file is known: it cannot fail while ExistingStructAttribute is a stub. */
  function StructCheck(pathParts: seq<string>): (e: JournalError)
    ensures e == JournalOk
  {
    if ExistingStructAttribute(pathParts) then StructRedefinition else JournalOk
  }

  class JournalParser {
    /** m_PendingUpdates, keyed by PathKey. */
    var pending: map<string, string>
    /** m_LinesRead, an unsigned int. */
    var linesRead: Uint32
    /** m_FileTracker; null stands for a parser built without one. */
    const tracker: DataFileTracker?
    /** m_FixChecksums. */
    const fixChecksums: bool
    /** QString::toUtf8 and qChecksum, whose definitions are not part of this model. */
    const utf8: string -> seq<Byte>
    const qChecksum: seq<Byte> -> Uint16

    constructor(tracker: DataFileTracker?, fixChecksums: bool, utf8: string -> seq<Byte>, qChecksum: seq<Byte> -> Uint16)
      ensures this.tracker == tracker && this.fixChecksums == fixChecksums
      ensures this.utf8 == utf8 && this.qChecksum == qChecksum
      ensures pending == map[] && linesRead == 0
    {
      this.tracker := tracker;
      this.fixChecksums := fixChecksums;
      this.utf8 := utf8;
      this.qChecksum := qChecksum;
      pending := map[];
      linesRead := 0;
    }

    /** The checksum of a line's UTF-8 bytes. */
    function Crc(line: string): Uint16
    {
      qChecksum(utf8(line))
    }

    /**
     * What ChecksumLine makes of a line: a line of five characters or fewer
     * has no checksum; otherwise the fifth character from the end must be a
     * space, the line is cut before it, and the last four characters must
     * be the cut line's checksum in hexadecimal, read as a signed 16-bit
     * number (or `****` in fix mode).
     */
    function Checksum(line: string): (c: Checked)
      ensures |line| <= 5 ==> c == Checked(MissingChecksum, line, 0)
      ensures |line| > 5 && !IsSpace(line[|line| - 5]) ==> c == Checked(BadChecksum, line, 0)
      ensures c.err == JournalOk || c.err == MissingChecksum || c.err == BadChecksum
      ensures c.err == JournalOk ==> |line| > 5 && c.line == line[..|line| - 5] && c.value == Crc(c.line)
      ensures c.err != JournalOk ==> c.value == 0
    {
      if |line| <= 5 then Checked(MissingChecksum, line, 0)
      else if !IsSpace(line[|line| - 5]) then Checked(BadChecksum, line, 0)
      else
        var stored := line[|line| - 4..];
        var cut := line[..|line| - 5];
        if (fixChecksums && stored == "****") || ToShortHex(stored) == Some(Crc(cut)) then Checked(JournalOk, cut, Crc(cut))
        else Checked(BadChecksum, cut, 0)
    }

    /** ChecksumLine: the source cuts its line argument in place; here the cut line is returned. */
    method ChecksumLine(line: string) returns (err: JournalError, cut: string, value: Uint16)
      ensures Checked(err, cut, value) == Checksum(line)
    {
      err := JournalOk;
      value := 0;
      cut := line;
      if |line| > 0 && |line| > 5 {
        if IsSpace(line[|line| - 5]) {
          var checksumStr := line[|line| - 4..];
          cut := line[..|line| - 5];
          var calcChecksum := qChecksum(utf8(cut));
          if fixChecksums && checksumStr == "****" {
          } else {
            var stored := ToShortHex(checksumStr);
            if stored.None? || stored.value != calcChecksum {
              err := BadChecksum;
            }
          }
          if err == JournalOk {
            value := calcChecksum;
          }
        } else {
          err := BadChecksum;
        }
      } else {
        err := MissingChecksum;
      }
    }

    /**
     * What ParseLine makes of a line: the trimmed line's checksum is checked,
     * and the term loop reads the cut line from an empty map of updates.
     */
    function LineOutcome(fileLine: string): Parsed
    {
      var c := Checksum(Trim(fileLine));
      if c.err != JournalOk then Parsed(c.err, map[]) else Scan(c.line, JournalOk, map[])
    }

    /** ClearUpdates: nothing stays pending. */
    method ClearUpdates()
      modifies this
      ensures pending == map[] && linesRead == old(linesRead)
    {
      pending := map[];
    }

    /**
     * CacheUpdate: files the value, as it is, under the path's key, replacing
     * one already there, and reports whether the key was new.
     */
    method CacheUpdate(attribPath: string, value: string) returns (isNew: bool)
      modifies this
      ensures isNew <==> PathKey(attribPath) !in old(pending)
      ensures pending == old(pending)[PathKey(attribPath) := value]
      ensures linesRead == old(linesRead)
    {
      isNew := true;
      var key := Trim(ToLower(attribPath));
      if key in pending {
        isNew := false;
      }
      pending := pending[key := value];
    }

    /**
     * ParseLine: clears the pending updates, checks the checksum, and reads
     * the pairs of the line. Whether the paths then pass CheckUpdates does not
     * change what the line reports.
     */
    method ParseLine(fileLine: string) returns (err: JournalError)
      modifies this
      ensures Parsed(err, pending) == LineOutcome(fileLine)
      ensures linesRead == old(linesRead)
    {
      var line := Trim(fileLine);
      var checksum: Uint16;
      ClearUpdates();
      err, line, checksum := ChecksumLine(line);
      if err == JournalOk {
        var currTerm: Term;
        var termStr: string := [];
        var attribPath: string := [];
        var done := false;
        var duplicates := false;
        ghost var target := Scan(line, err, pending);
        while !done
          invariant !done ==> Scan(line, err, pending) == target
          invariant done ==> Parsed(err, pending) == target
          invariant linesRead == old(linesRead)
          decreases if done then 0 else |line| + 1
        {
          ghost var before := line;
          LexShrinks(line);
          currTerm, termStr, line := NextTerm(line);
          if currTerm == AttribOrValue {
            attribPath := termStr;
            LexShrinks(line);
            currTerm, termStr, line := NextTerm(line);
            if currTerm == EqualsSign {
              LexShrinks(line);
              currTerm, termStr, line := NextTerm(line);
              if currTerm == AttribOrValue || currTerm == ValueOnly {
                var isNew := CacheUpdate(attribPath, termStr);
                if !isNew {
                  duplicates := true;
                }
              } else {
                err := MissingValue;
              }
            } else {
              err := NoEquals;
            }
          } else if currTerm == EndOfLine {
            done := true;
          } else {
            err := MissingAttribute;
          }
        }
        if err == JournalOk {
          var checked := CheckUpdates();
          if checked == JournalOk {
            var applied := ApplyUpdates();
          }
        }
      }
    }

    /**
     * The check of one pending key: it needs a dot, and the part before the
     * first dot must name a registered file that has a tree.
     */
    function KeyError(key: string): (e: JournalError)
      reads tracker
      ensures e != StructRedefinition
      ensures e == MalformedAttribute <==> '.' !in key
      ensures e == JournalOk <==> '.' in key && KnownFile(tracker, key[..IndexOf(key, '.')])
      ensures e == JournalOk || e == MalformedAttribute || e == FileIdNotFound
    {
      var pathParts := Split(key, '.');
      SplitParts(key, '.');
      if |pathParts| < 2 then MalformedAttribute
      else if !KnownFile(tracker, pathParts[0]) then FileIdNotFound
      else StructCheck(pathParts)
    }

    /** The first failing check among the keys, in their order; JournalOk when none fails. */
    function FirstKeyError(keys: seq<string>): JournalError
      reads tracker
      decreases |keys|
    {
      if keys == [] then JournalOk
      else if KeyError(keys[0]) != JournalOk then KeyError(keys[0])
      else FirstKeyError(keys[1..])
    }

    /**
     * CheckUpdates: walks the pending keys in ascending order and stops at
     * the first that fails its check. It changes nothing.
     */
    method CheckUpdates() returns (err: JournalError)
      ensures err == FirstKeyError(SortedStrings(pending.Keys))
      ensures err == JournalOk <==> forall k :: k in pending ==> KeyError(k) == JournalOk
    {
      err := JournalOk;
      var remaining := pending.Keys;
      while err == JournalOk && remaining != {}
        invariant remaining <= pending.Keys
        invariant FirstKeyError(SortedStrings(pending.Keys)) == if err == JournalOk then FirstKeyError(SortedStrings(remaining)) else err
        decreases |remaining|
      {
        StringMinExists(remaining);
        var key :| key in remaining && forall y :: y in remaining && y != key ==> StrLess(key, y);
        SortedStringsStep(remaining, key);
        err := KeyError(key);
        remaining := remaining - {key};
      }
      FirstKeyErrorOk(SortedStrings(pending.Keys));
      SortedStringsSpec(pending.Keys);
    }

    /** The first failing key's error is JournalOk exactly when every key passes. */
    lemma {:induction false} FirstKeyErrorOk(keys: seq<string>)
      ensures FirstKeyError(keys) == JournalOk <==> forall i :: 0 <= i < |keys| ==> KeyError(keys[i]) == JournalOk
      decreases |keys|
    {
      if keys != [] && KeyError(keys[0]) == JournalOk {
        FirstKeyErrorOk(keys[1..]);
        if FirstKeyError(keys[1..]) == JournalOk {
          forall i | 0 < i < |keys|
            ensures KeyError(keys[i]) == JournalOk
          {
            assert keys[i] == keys[1..][i - 1];
          }
        } else {
          var j :| 0 <= j < |keys[1..]| && KeyError(keys[1..][j]) != JournalOk;
          assert keys[j + 1] == keys[1..][j];
        }
      }
    }

    /** Otherwise it is the error of a failing key all of whose predecessors pass. */
    lemma {:induction false} FirstFailingKey(keys: seq<string>) returns (i: nat)
      requires FirstKeyError(keys) != JournalOk
      ensures i < |keys| && FirstKeyError(keys) == KeyError(keys[i])
      ensures forall j :: 0 <= j < i ==> KeyError(keys[j]) == JournalOk
      decreases |keys|
    {
      if KeyError(keys[0]) != JournalOk {
        i := 0;
      } else {
        var k := FirstFailingKey(keys[1..]);
        i := k + 1;
        assert keys[i] == keys[1..][k];
        forall j | 0 < j < i
          ensures KeyError(keys[j]) == JournalOk
        {
          assert keys[j] == keys[1..][j - 1];
        }
      }
    }

    /** ApplyUpdates: a stub that applies nothing and succeeds. */
    method ApplyUpdates() returns (applied: bool)
      ensures applied
    {
      applied := true;
    }

    /** What Process makes of each line: nothing for a blank line, ParseLine's outcome for any other. */
    function Outcomes(lines: seq<string>): (outs: seq<Option<Parsed>>)
      ensures |outs| == |lines|
    {
      seq(|lines|, i requires 0 <= i < |lines| =>
        if Trim(lines[i]) == [] then None else Some(LineOutcome(Trim(lines[i]))))
    }

    /**
     * Process: isOpen stands for the journal file existing and opening; lines
     * are what readLine gives back, in order. Without a tracker or a readable
     * file nothing happens. Otherwise m_LinesRead restarts from 0 and counts
     * every line read, as an unsigned int, and the result is whether no line
     * failed.
     */
    method Process(lines: seq<string>, isOpen: bool) returns (ok: bool)
      modifies this
      ensures ok <==> tracker != null && isOpen && RunOf(Outcomes(lines), 0, old(pending)).err == JournalOk
      ensures tracker != null && isOpen ==>
        linesRead == Wrap(RunOf(Outcomes(lines), 0, old(pending)).linesRead) &&
        pending == RunOf(Outcomes(lines), 0, old(pending)).pending
      ensures !(tracker != null && isOpen) ==> pending == old(pending) && linesRead == old(linesRead)
    {
      ok := false;
      if tracker != null && isOpen {
        ghost var outs := Outcomes(lines);
        var err := JournalOk;
        linesRead := 0;
        var i := 0;
        while i < |lines| && err == JournalOk
          invariant 0 <= i <= |lines|
          invariant linesRead == Wrap(i)
          invariant RunOf(outs, 0, old(pending)) ==
            if err == JournalOk then RunOf(outs[i..], i, pending) else Run(err, i, pending)
        {
          CountStep(i);
          linesRead := Inc(linesRead);
          err := ProcessLine(lines, i, outs);
          i := i + 1;
        }
        if err == JournalOk {
          ok := true;
        }
      }
    }

    /**
     * The body of Process's loop past the line count: a blank line is skipped
     * and any other is parsed.
     */
    method ProcessLine(lines: seq<string>, i: nat, ghost outs: seq<Option<Parsed>>) returns (err: JournalError)
      requires i < |lines| && outs == Outcomes(lines)
      modifies this
      ensures RunOf(outs[i..], i, old(pending)) ==
        if err == JournalOk then RunOf(outs[i + 1..], i + 1, pending) else Run(err, i + 1, pending)
      ensures linesRead == old(linesRead)
    {
      RunOfStep(outs, i, pending);
      err := JournalOk;
      var line := Trim(lines[i]);
      if |line| > 0 {
        err := ParseLine(line);
      }
    }

    // -------------------------------------------------------------------------
    // Checksummed lines.
    // -------------------------------------------------------------------------

    /**
     * A body followed by a space and its checksum in four hexadecimal digits
     * passes the check, and is cut back to the body, exactly when the
     * checksum is at most 7FFF: toShort refuses the upper half of the range.
     */
    lemma {:induction false} SignedLine(body: string)
      requires body != []
      ensures Checksum(Signed(body, Crc(body))) ==
        if Crc(body) <= 0x7FFF then Checked(JournalOk, body, Crc(body)) else Checked(BadChecksum, body, 0)
    {
      var h := HexText(Crc(body), 4);
      assert Pow16(4) == 0x1_0000;
      HexTextValue(Crc(body), 4);
      FourHexDigits(h);
      assert HexDigit(h[0]).Some?;
      StoredChecksum(body, h);
    }

    /**
     * A body, a space and four characters, not starting with `*`: the four are
     * the stored checksum, and the line passes exactly when they read as
     * the body's checksum.
     */
    lemma {:induction false} StoredChecksum(body: string, stored: string)
      requires body != [] && |stored| == 4 && stored[0] != '*'
      ensures Checksum(body + " " + stored) ==
        if ToShortHex(stored) == Some(Crc(body)) then Checked(JournalOk, body, Crc(body)) else Checked(BadChecksum, body, 0)
    {
      var line := body + " " + stored;
      assert line[|line| - 5] == ' ';
      assert line[|line| - 4..] == stored;
      assert line[..|line| - 5] == body;
      assert stored != "****" by { assert "****"[0] == '*'; }
    }

    /** In fix mode, `****` in place of the checksum is accepted for any body. */
    lemma {:induction false} FixModeLine(body: string)
      requires fixChecksums && body != []
      ensures Checksum(body + " ****") == Checked(JournalOk, body, Crc(body))
    {
      var line := body + " ****";
      assert line[|line| - 5] == ' ';
      assert line[|line| - 4..] == "****";
      assert line[..|line| - 5] == body;
    }

    /**
     * A well-formed pair, signed with a checksum of at most 7FFF, is accepted
     * and leaves exactly that one update pending, with the value as written.
     */
    lemma {:induction false} SignedPairAccepted(name: string, value: string)
      requires PlainWord(name) && ValueTerm(value)
      requires Crc(name + " = " + value) <= 0x7FFF
      ensures LineOutcome(Signed(name + " = " + value, Crc(name + " = " + value))) ==
        Parsed(JournalOk, map[PathKey(name) := value])
    {
      var body := name + " = " + value;
      var line := Signed(body, Crc(body));
      SignedLine(body);
      assert Pow16(4) == 0x1_0000;
      HexTextValue(Crc(body), 4);
      HexValueDigits(HexText(Crc(body), 4));
      assert HexDigit(line[|line| - 1]).Some?;
      assert line[0] == name[0];
      TrimmedAlready(line);
      PairAccepted(name, value, map[]);
    }
  }

  // ---------------------------------------------------------------------------
  // The line loop of Process.
  // ---------------------------------------------------------------------------

  /** A line outcome that stops Process: a parsed line with an error. */
  predicate Fails(o: Option<Parsed>)
  {
    o.Some? && o.value.err != JournalOk
  }

  /**
   * Process over the lines' outcomes, having counted count lines: every line
   * is counted, a blank one is skipped, and the first failing one ends the
   * run with its error and its pending updates.
   */
  function RunOf(outs: seq<Option<Parsed>>, count: nat, pending: map<string, string>): Run
    decreases |outs|
  {
    if outs == [] then Run(JournalOk, count, pending)
    else if outs[0].None? then RunOf(outs[1..], count + 1, pending)
    else if outs[0].value.err != JournalOk then Run(outs[0].value.err, count + 1, outs[0].value.pending)
    else RunOf(outs[1..], count + 1, outs[0].value.pending)
  }

  lemma {:induction false} RunOfStep(outs: seq<Option<Parsed>>, i: nat, p: map<string, string>)
    requires i < |outs|
    ensures RunOf(outs[i..], i, p) ==
      if outs[i].None? then RunOf(outs[i + 1..], i + 1, p)
      else if outs[i].value.err != JournalOk then Run(outs[i].value.err, i + 1, outs[i].value.pending)
      else RunOf(outs[i + 1..], i + 1, outs[i].value.pending)
  {
    assert outs[i..][0] == outs[i];
    assert outs[i..][1..] == outs[i + 1..];
  }

  /** The index of the first failing line, or the number of lines when none fails. */
  function FirstFailure(outs: seq<Option<Parsed>>): (i: nat)
    ensures i <= |outs|
    ensures forall j :: 0 <= j < i ==> !Fails(outs[j])
    ensures i < |outs| ==> Fails(outs[i])
    decreases |outs|
  {
    if outs == [] then 0
    else if Fails(outs[0]) then 0
    else
      var rest := FirstFailure(outs[1..]);
      assert forall j :: 0 < j <= rest ==> outs[j] == outs[1..][j - 1];
      1 + rest
  }

  /**
   * Process accepts exactly when no line fails. It stops at the first
   * failing line, with that line's error, having counted the lines up to
   * and including it; otherwise it counts every line.
   */
  lemma {:induction false} RunOfSpec(outs: seq<Option<Parsed>>, count: nat, p: map<string, string>)
    ensures var r, i := RunOf(outs, count, p), FirstFailure(outs);
      && (r.err == JournalOk <==> i == |outs|)
      && r.linesRead == count + (if i == |outs| then |outs| else i + 1)
      && (i < |outs| ==> r.err == outs[i].value.err)
    decreases |outs|
  {
    if outs != [] && !Fails(outs[0]) {
      var q := if outs[0].None? then p else outs[0].value.pending;
      RunOfSpec(outs[1..], count + 1, q);
      var i := FirstFailure(outs[1..]);
      if i < |outs[1..]| {
        assert outs[1..][i] == outs[i + 1];
      }
    }
  }

  /** A count of n kept in an unsigned int. */
  function Wrap(n: nat): Uint32
  {
    n % 0x1_0000_0000
  }

  /** `++` on an unsigned int: the largest value wraps to 0. */
  function Inc(x: Uint32): (r: Uint32)
    ensures r == (x + 1) % 0x1_0000_0000
  {
    if x == 0xFFFF_FFFF then 0 else x + 1
  }

  /** Counting one more line in an unsigned int keeps the count equal to the true count modulo 2^32. */
  lemma {:induction false} CountStep(i: nat)
    ensures Inc(Wrap(i)) == Wrap(i + 1)
  {
  }

  // ---------------------------------------------------------------------------
  // What the term loop accepts and rejects.
  // ---------------------------------------------------------------------------

  /** A value term that reads back whole: one word, with no space at either end. */
  predicate ValueTerm(value: string)
  {
    && value != [] && !IsSpace(value[0]) && !IsSpace(value[|value| - 1])
    && (Lex(value).kind == AttribOrValue || Lex(value).kind == ValueOnly)
    && Lex(value).text == value && Lex(value).rest == []
  }

  /** Once a line has an error, no later term clears it. */
  lemma {:induction false} ErrorSticks(line: string, err: JournalError, p: map<string, string>)
    requires err != JournalOk
    ensures Scan(line, err, p).err != JournalOk
    decreases |line|
  {
    var a := Lex(line);
    LexShrinks(line);
    LexShrinks(a.rest);
    if a.kind == AttribOrValue {
      var b := Lex(a.rest);
      LexShrinks(b.rest);
      if b.kind != EqualsSign {
        ErrorSticks(b.rest, NoEquals, p);
      } else {
        var c := Lex(b.rest);
        if c.kind == AttribOrValue || c.kind == ValueOnly {
          ErrorSticks(c.rest, err, p[PathKey(a.text) := c.text]);
        } else {
          ErrorSticks(c.rest, MissingValue, p);
        }
      }
    } else if a.kind != EndOfLine {
      ErrorSticks(a.rest, MissingAttribute, p);
    }
  }

  /**
   * A line whose first word holds a dot outside quotes (the `file.attribute`
   * form of a path) is VALUE_ONLY, so the line is rejected.
   */
  lemma {:induction false} DottedPathRejected(line: string, j: nat, err: JournalError, p: map<string, string>)
    requires var t := Trim(line); j < |t| && t[j] == '.'
    requires forall k :: 0 <= k < j ==> Plain(Trim(line)[k])
    ensures Scan(line, err, p).err != JournalOk
  {
    DotMakesValueOnly(line, j);
    LexShrinks(line);
    ErrorSticks(Lex(line).rest, MissingAttribute, p);
  }

  /** A plain name, `=` and a value term make one pending update, keyed by the name, holding the value as written. */
  lemma {:induction false} PairAccepted(name: string, value: string, p: map<string, string>)
    requires PlainWord(name) && ValueTerm(value)
    ensures Scan(name + " = " + value, JournalOk, p) == Parsed(JournalOk, p[PathKey(name) := value])
  {
    var line := name + " = " + value;
    var q := p[PathKey(name) := value];
    NameTerm(name, value);
    EqualsTerm(value);
    LeadingSpace(value);
    LexBlank([]);
    assert Scan([], JournalOk, q) == Parsed(JournalOk, q);
    assert Scan(line, JournalOk, p) == Scan([], JournalOk, q);
  }

  lemma {:induction false} NameTerm(name: string, value: string)
    requires PlainWord(name) && value != [] && !IsSpace(value[|value| - 1])
    ensures Lex(name + " = " + value) == Lexeme(AttribOrValue, name, " = " + value)
  {
    assert name + " = " + value == name + (" = " + value);
    LexPlain(name, " = " + value);
  }

  lemma {:induction false} EqualsTerm(value: string)
    requires value != [] && !IsSpace(value[0]) && !IsSpace(value[|value| - 1])
    ensures Lex(" = " + value) == Lexeme(EqualsSign, "=", " " + value)
  {
    var e := "=" + (" " + value);
    assert " = " + value == " " + e;
    LeadingSpace(e);
    TrimmedAlready(e);
    LexPunctuation(e);
    assert e[1..] == " " + value;
  }

  /** A plain word is a value term. */
  lemma {:induction false} PlainValue(value: string)
    requires PlainWord(value)
    ensures ValueTerm(value)
  {
    LexPlain(value, []);
    assert value + [] == value;
  }

  /**
   * A quoted value is cached with its quotes and escapes: the journal keeps
   * values raw, and UnquoteTerm is never applied to them.
   */
  lemma {:induction false} QuotedValueRaw(name: string, s: string, p: map<string, string>)
    requires PlainWord(name)
    ensures Scan(name + " = " + Quote(s, true), JournalOk, p) == Parsed(JournalOk, p[PathKey(name) := Quote(s, true)])
  {
    var q := Quote(s, true);
    LexQuoted(s, []);
    assert q + [] == q;
    PairAccepted(name, q, p);
  }

  // ---------------------------------------------------------------------------
  // Writing a checksum in hexadecimal.
  // ---------------------------------------------------------------------------

  function Pow16(n: nat): (r: nat)
    ensures r >= 1
  {
    if n == 0 then 1 else 16 * Pow16(n - 1)
  }

  function HexChar(d: nat): char
    requires d < 16
  {
    if d < 10 then ('0' as int + d) as char else ('a' as int + d - 10) as char
  }

  /** The lowest n hexadecimal digits of v, most significant first. */
  function HexText(v: nat, n: nat): (s: string)
    ensures |s| == n
    decreases n
  {
    if n == 0 then [] else HexText(v / 16, n - 1) + [HexChar(v % 16)]
  }

  /** A line signed with a checksum: the body, a space, and the checksum in four digits. */
  function Signed(body: string, checksum: Uint16): string
  {
    body + " " + HexText(checksum, 4)
  }

  /** Reading back n hexadecimal digits gives the value they were written from. */
  lemma {:induction false} HexTextValue(v: nat, n: nat)
    requires v < Pow16(n)
    ensures HexValue(HexText(v, n)) == Some(v)
    decreases n
  {
    if n > 0 {
      var s := HexText(v, n);
      HexTextValue(v / 16, n - 1);
      assert s[..|s| - 1] == HexText(v / 16, n - 1);
      assert HexDigit(HexChar(v % 16)) == Some(v % 16);
    }
  }
}
