/**
 * The line-oriented key/value reader that turns the service sidecar's log
 * into string maps, and the selection of the most recent entry.
 *
 * Each line is trimmed of spaces and tabs, loses one pair of outer braces
 * when it has both, is cut at every comma into segments, and every segment
 * that holds a colon contributes the pair (text before the first colon, text
 * after it), each with one pair of surrounding double quotes removed.  The
 * reader is deliberately naive: nested objects and quoted commas are not
 * recognised.
 */
module SidecarLog {

  import opened Ndn

  type LogEntry = map<string, string>

  predicate IsBlank(c: char) { c == ' ' || c == '\t' }

  /** Index of the first character that is not a blank, |s| if there is none. */
  function FirstNonBlank(s: string): (i: nat)
    ensures i <= |s|
    ensures forall k :: 0 <= k < i ==> IsBlank(s[k])
    ensures i < |s| ==> !IsBlank(s[i])
  {
    if s == [] || !IsBlank(s[0]) then 0 else 1 + FirstNonBlank(s[1..])
  }

  /** One past the last character that is not a blank, 0 if there is none. */
  function EndOfNonBlank(s: string): (j: nat)
    ensures j <= |s|
    ensures forall k :: j <= k < |s| ==> IsBlank(s[k])
    ensures 0 < j ==> !IsBlank(s[j - 1])
  {
    if s == [] || !IsBlank(s[|s| - 1]) then |s| else EndOfNonBlank(s[..|s| - 1])
  }

  /**
   * The line after erasing its leading and then its trailing spaces and tabs.
   * The result is one contiguous piece of the line: nothing inside it is
   * touched.
   */
  function Trim(line: string): string
  {
    var i := FirstNonBlank(line);
    var s := line[i..];
    s[..EndOfNonBlank(s)]
  }

  /**
   * Trimming keeps one contiguous piece of the line, which starts and ends
   * with a non-blank, and drops only blanks around it; it is empty exactly
   * when the line is all blanks.
   */
  lemma TrimSpec(line: string)
    ensures var t := Trim(line);
            && (t == [] <==> forall k :: 0 <= k < |line| ==> IsBlank(line[k]))
            && (t != [] ==> !IsBlank(t[0]) && !IsBlank(t[|t| - 1]))
            && FirstNonBlank(line) + |t| <= |line|
            && t == line[FirstNonBlank(line)..FirstNonBlank(line) + |t|]
            && forall k :: FirstNonBlank(line) + |t| <= k < |line| ==> IsBlank(line[k])
  {
    var i := FirstNonBlank(line);
    var j := EndOfNonBlank(line[i..]);
    TrimSlice(line, i, j);
  }

  /** The piece between a blank prefix of length i and a blank tail of line[i..] from j on. */
  lemma TrimSlice(line: string, i: nat, j: nat)
    requires i <= |line| && j <= |line| - i
    requires forall k :: 0 <= k < i ==> IsBlank(line[k])
    requires forall k :: j <= k < |line| - i ==> IsBlank(line[i..][k])
    ensures line[i..][..j] == line[i..i + j]
    ensures forall k :: i + j <= k < |line| ==> IsBlank(line[k])
    ensures j == 0 ==> forall k :: 0 <= k < |line| ==> IsBlank(line[k])
  {
    forall k | i + j <= k < |line| ensures IsBlank(line[k]) {
      assert line[k] == line[i..][k - i];
    }
    assert line[i..][..j] == line[i..i + j];
  }

  /** Outer braces are removed only when the text both starts with '{' and ends with '}'. */
  function StripBraces(s: string): (r: string)
    requires s != []
    ensures s[0] == '{' && s[|s| - 1] == '}' ==> 2 <= |s| && r == s[1..|s| - 1]
    ensures !(s[0] == '{' && s[|s| - 1] == '}') ==> r == s
  {
    if s[0] == '{' && s[|s| - 1] == '}' then s[1..|s| - 1] else s
  }

  /** Index of the first occurrence of c in s, |s| if there is none. */
  function IndexOf(s: string, c: char): (i: nat)
    ensures i <= |s|
    ensures i < |s| ==> s[i] == c
  {
    if s == [] then 0 else if s[0] == c then 0 else 1 + IndexOf(s[1..], c)
  }

  /** Nothing before the index is c: it is the first occurrence. */
  lemma {:induction false} IndexOfFirst(s: string, c: char)
    ensures c !in s[..IndexOf(s, c)]
  {
    if s != [] && s[0] != c {
      IndexOfFirst(s[1..], c);
      assert s[..IndexOf(s, c)] == [s[0]] + s[1..][..IndexOf(s[1..], c)];
    }
  }

  /**
   * The pieces that repeated getline(stream, piece, ',') delivers: the text
   * between commas, where a comma at the very end (or an empty text) does not
   * start a further, empty piece.
   */
  function GetlineSplit(s: string): seq<string>
    decreases |s|
  {
    if s == [] then []
    else
      var i := IndexOf(s, ',');
      [s[..i]] + GetlineSplit(if i == |s| then [] else s[i + 1..])
  }

  /** No piece getline yields holds the delimiter. */
  lemma {:induction false} GetlineSplitNoComma(s: string)
    ensures forall p | p in GetlineSplit(s) :: ',' !in p
    decreases |s|
  {
    if s != [] {
      var i := IndexOf(s, ',');
      IndexOfFirst(s, ',');
      var next := if i == |s| then [] else s[i + 1..];
      GetlineSplitNoComma(next);
      forall p | p in GetlineSplit(s) ensures ',' !in p {
        if p != s[..i] {
          assert p in GetlineSplit(next);
        }
      }
    }
  }

  /**
   * Reading one piece off the front of the remaining text inserts that
   * piece's pair (if any) and leaves the pairs of the remaining pieces.
   */
  lemma PieceStep(entry: LogEntry, rest: string, piece: string, next: string)
    requires rest != [] && SegmentsWellFormed(GetlineSplit(rest))
    requires piece == rest[..IndexOf(rest, ',')]
    requires next == if IndexOf(rest, ',') == |rest| then [] else rest[IndexOf(rest, ',') + 1..]
    ensures SegmentWellFormed(piece)
    ensures SegmentsWellFormed(GetlineSplit(next))
    ensures AddPairs(entry, GetlineSplit(rest)) == AddPairs(Insert(entry, piece), GetlineSplit(next))
  {
    assert GetlineSplit(rest) == [piece] + GetlineSplit(next);
    AddPairsCons(entry, piece, GetlineSplit(next));
  }

  lemma AddPairsCons(acc: LogEntry, seg: string, segs: seq<string>)
    requires SegmentsWellFormed([seg] + segs)
    ensures SegmentWellFormed(seg) && SegmentsWellFormed(segs)
    ensures AddPairs(acc, [seg] + segs) == AddPairs(Insert(acc, seg), segs)
  {
    assert ([seg] + segs)[1..] == segs;
  }

  /** One surrounding pair of double quotes removed, when both ends are quotes. */
  function Unquote(s: string): (r: string)
    requires s != []
    ensures s[0] == '"' && s[|s| - 1] == '"' ==> r == (if |s| == 1 then [] else s[1..|s| - 1])
    ensures !(s[0] == '"' && s[|s| - 1] == '"') ==> r == s
  {
    if s[0] == '"' && s[|s| - 1] == '"' then
      // substr(1, length - 2) with length 1 asks for "the rest", which is empty
      if |s| == 1 then [] else s[1..|s| - 1]
    else s
  }

  /**
   * front() and back() are only defined on non-empty strings: a segment that
   * holds a colon must have text on both sides of its first colon.
   */
  predicate SegmentWellFormed(seg: string)
  {
    var i := IndexOf(seg, ':');
    i < |seg| ==> 0 < i && i + 1 < |seg|
  }

  /** The pair a segment contributes, if it holds a colon. */
  function KeyValue(seg: string): (kv: Option<(string, string)>)
    requires SegmentWellFormed(seg)
    ensures kv.None? <==> ':' !in seg
  {
    var i := IndexOf(seg, ':');
    if i == |seg| then
      IndexOfFirst(seg, ':');
      assert seg[..i] == seg;
      None
    else Some((Unquote(seg[..i]), Unquote(seg[i + 1..])))
  }

  /**
   * The key is the unquoted text before the first colon, which is not at
   * either end, and the value is the unquoted text after it, further colons
   * included.
   */
  lemma KeyValueAtFirstColon(seg: string)
    requires SegmentWellFormed(seg) && ':' in seg
    ensures exists i :: 0 < i < |seg| - 1 && seg[i] == ':' && ':' !in seg[..i]
                        && KeyValue(seg) == Some((Unquote(seg[..i]), Unquote(seg[i + 1..])))
  {
    IndexOfFirst(seg, ':');
  }

  predicate SegmentsWellFormed(segs: seq<string>)
  {
    forall seg | seg in segs :: SegmentWellFormed(seg)
  }

  /** The segment's pair, if it has one, inserted into acc (overwriting an equal key). */
  function Insert(acc: LogEntry, seg: string): LogEntry
    requires SegmentWellFormed(seg)
  {
    var kv := KeyValue(seg);
    if kv.Some? then acc[kv.value.0 := kv.value.1] else acc
  }

  /** Insert in terms of the first colon of the segment. */
  lemma InsertAt(acc: LogEntry, seg: string)
    requires SegmentWellFormed(seg)
    ensures var colon := IndexOf(seg, ':');
            Insert(acc, seg)
            == if colon < |seg| then acc[Unquote(seg[..colon]) := Unquote(seg[colon + 1..])] else acc
  {
  }

  /** Inserting the segments' pairs into acc, left to right (later keys overwrite). */
  function AddPairs(acc: LogEntry, segs: seq<string>): LogEntry
    requires SegmentsWellFormed(segs)
    decreases |segs|
  {
    if segs == [] then acc
    else
      AddPairs(Insert(acc, segs[0]), segs[1..])
  }

  /** The text between the trimmed line's braces, or the trimmed line. */
  function Body(line: string): string
    requires Trim(line) != []
  {
    StripBraces(Trim(line))
  }

  predicate LineWellFormed(line: string)
  {
    Trim(line) != [] && SegmentsWellFormed(GetlineSplit(Body(line)))
  }

  /** The map one log line yields. */
  function LineEntry(line: string): LogEntry
    requires LineWellFormed(line)
  {
    AddPairs(map[], GetlineSplit(Body(line)))
  }

  /** The map of every line, one per line. */
  function LineEntries(lines: seq<string>): (es: seq<LogEntry>)
    requires forall l | l in lines :: LineWellFormed(l)
    ensures |es| == |lines|
    ensures forall i :: 0 <= i < |lines| ==> es[i] == LineEntry(lines[i])
  {
    seq(|lines|, i requires 0 <= i < |lines| => LineEntry(lines[i]))
  }

  /** The non-empty maps of es, in order. */
  function Yielding(es: seq<LogEntry>): seq<LogEntry>
  {
    if es == [] then []
    else
      var last := es[|es| - 1];
      Yielding(es[..|es| - 1]) + (if last != map[] then [last] else [])
  }

  /** The entries the whole log yields: one per line that yields a pair, in order. */
  function LogEntries(lines: seq<string>): seq<LogEntry>
    requires forall l | l in lines :: LineWellFormed(l)
  {
    Yielding(LineEntries(lines))
  }

  /**
   * The per-line reader: trim, strip braces, then read comma-separated
   * pieces one at a time and insert each key/value pair.
   */
  method ParseLine(line: string) returns (entry: LogEntry)
    requires LineWellFormed(line)
    ensures entry == LineEntry(line)
  {
    var s := line[FirstNonBlank(line)..];
    s := s[..EndOfNonBlank(s)];
    assert s == Trim(line);
    if s[0] == '{' && s[|s| - 1] == '}' {
      s := s[1..|s| - 1];
    }
    assert s == Body(line);
    entry := map[];
    var rest := s;
    while rest != []
      invariant SegmentsWellFormed(GetlineSplit(rest))
      invariant AddPairs(entry, GetlineSplit(rest)) == LineEntry(line)
      decreases |rest|
    {
      var comma := IndexOf(rest, ',');
      var piece := rest[..comma];
      var next := if comma == |rest| then [] else rest[comma + 1..];
      PieceStep(entry, rest, piece, next);
      InsertAt(entry, piece);
      ghost var entry' := Insert(entry, piece);
      rest := next;
      var colon := IndexOf(piece, ':');
      if colon < |piece| {
        var key := Unquote(piece[..colon]);
        var value := Unquote(piece[colon + 1..]);
        entry := entry[key := value];
      }
      assert entry == entry';
    }
    assert GetlineSplit(rest) == [];
  }

  /** The reading loop over the log's lines, keeping only lines that yield a pair. */
  method ParseSidecarLog(lines: seq<string>) returns (entries: seq<LogEntry>)
    requires forall l | l in lines :: LineWellFormed(l)
    ensures entries == LogEntries(lines)
  {
    entries := [];
    var n := 0;
    while n < |lines|
      invariant n <= |lines|
      invariant entries == LogEntries(lines[..n])
    {
      var entry := ParseLine(lines[n]);
      ghost var es := LineEntries(lines[..n + 1]);
      assert lines[..n + 1][..n] == lines[..n];
      assert es[..n] == LineEntries(lines[..n]) && es[n] == entry;
      assert es[..|es| - 1] == es[..n];
      if entry != map[] {
        entries := entries + [entry];
      }
      n := n + 1;
    }
    assert lines[..n] == lines;
  }

  const NoEntries: LogEntry := map["error" := "No log entries found"]

  /** The most recent entry, or the fixed error map when there is none. */
  function GetLatestStats(entries: seq<LogEntry>): (r: LogEntry)
  {
    if entries == [] then NoEntries else entries[|entries| - 1]
  }

  // ---------------------------------------------------------------------
  // Properties of the reader
  // ---------------------------------------------------------------------

  /** The pieces glued back together with commas. */
  function Join(pieces: seq<string>): string
  {
    if pieces == [] then []
    else if |pieces| == 1 then pieces[0]
    else pieces[0] + [','] + Join(pieces[1..])
  }

  /**
   * Splitting loses nothing but a single trailing comma: gluing the pieces
   * back together gives the text that was split.
   */
  lemma {:induction false} SplitJoin(s: string)
    requires s == [] || s[|s| - 1] != ','
    ensures Join(GetlineSplit(s)) == s
    decreases |s|
  {
    if s != [] {
      var i := IndexOf(s, ',');
      if i < |s| {
        var head, rest := s[..i], s[i + 1..];
        CutAt(s, i);
        SplitJoin(rest);
            JoinCons(head, GetlineSplit(rest));
      }
    }
  }

  lemma CutAt(s: string, i: nat)
    requires i < |s|
    ensures s == s[..i] + [s[i]] + s[i + 1..]
    ensures i + 1 < |s| ==> s[i + 1..][|s| - i - 2] == s[|s| - 1]
  {
    assert s == s[..i] + s[i..];
  }

  lemma JoinCons(head: string, ps: seq<string>)
    requires ps != []
    ensures Join([head] + ps) == head + [','] + Join(ps)
  {
    assert ([head] + ps)[1..] == ps;
  }

  /** Whether some segment of segs yields the key k. */
  predicate HasKey(segs: seq<string>, k: string)
    requires SegmentsWellFormed(segs)
  {
    exists j :: 0 <= j < |segs| && KeyValue(segs[j]).Some? && KeyValue(segs[j]).value.0 == k
  }

  /**
   * The keys after reading segments are those that were there already plus
   * those some segment yields, and a key no segment yields keeps its value.
   */
  lemma {:induction false} AddPairsKeys(acc: LogEntry, segs: seq<string>, k: string)
    requires SegmentsWellFormed(segs)
    ensures k in AddPairs(acc, segs) <==> k in acc || HasKey(segs, k)
    ensures !HasKey(segs, k) && k in acc ==> AddPairs(acc, segs)[k] == acc[k]
    decreases |segs|
  {
    if segs != [] {
      var tail := segs[1..];
      AddPairsCons(acc, segs[0], tail);
      assert [segs[0]] + tail == segs;
      AddPairsKeys(Insert(acc, segs[0]), tail, k);
      if HasKey(tail, k) {
        var j :| 0 <= j < |tail| && KeyValue(tail[j]).Some? && KeyValue(tail[j]).value.0 == k;
        assert segs[j + 1] == tail[j];
      }
      if HasKey(segs, k) {
        var j :| 0 <= j < |segs| && KeyValue(segs[j]).Some? && KeyValue(segs[j]).value.0 == k;
        if j > 0 {
          assert tail[j - 1] == segs[j];
        }
      }
    }
  }

  /** A key takes the value of the LAST segment that yields it. */
  lemma {:induction false} AddPairsLastWins(acc: LogEntry, segs: seq<string>, j: nat)
    requires SegmentsWellFormed(segs)
    requires j < |segs| && KeyValue(segs[j]).Some?
    requires forall m | j < m < |segs| && KeyValue(segs[m]).Some? ::
               KeyValue(segs[m]).value.0 != KeyValue(segs[j]).value.0
    ensures var kv := KeyValue(segs[j]).value;
            kv.0 in AddPairs(acc, segs) && AddPairs(acc, segs)[kv.0] == kv.1
    decreases |segs|
  {
    var tail := segs[1..];
    AddPairsCons(acc, segs[0], tail);
    assert [segs[0]] + tail == segs;
    if j == 0 {
      var k := KeyValue(segs[0]).value.0;
      assert !HasKey(tail, k) by {
        forall m | 0 <= m < |tail| && KeyValue(tail[m]).Some? ensures KeyValue(tail[m]).value.0 != k {
          assert tail[m] == segs[m + 1];
        }
      }
      AddPairsKeys(Insert(acc, segs[0]), tail, k);
    } else {
      assert tail[j - 1] == segs[j];
      forall m | j - 1 < m < |tail| ensures tail[m] == segs[m + 1] { }
      AddPairsLastWins(Insert(acc, segs[0]), tail, j - 1);
    }
  }

  /** A well-formed line yields an empty map exactly when none of its pieces holds a colon. */
  lemma LineEntryEmpty(line: string)
    requires LineWellFormed(line)
    ensures LineEntry(line) == map[] <==>
            forall p | p in GetlineSplit(Body(line)) :: ':' !in p
  {
    var segs := GetlineSplit(Body(line));
    if LineEntry(line) == map[] {
      forall p | p in segs ensures ':' !in p {
        var j :| 0 <= j < |segs| && segs[j] == p;
        if ':' in p {
          var kv := KeyValue(p);
          AddPairsKeys(map[], segs, kv.value.0);
        }
      }
    } else {
      var k :| k in LineEntry(line);
      AddPairsKeys(map[], segs, k);
    }
  }

  /** Filtering keeps at most every map, and only non-empty ones. */
  lemma {:induction false} YieldingShape(es: seq<LogEntry>)
    ensures |Yielding(es)| <= |es|
    ensures forall e | e in Yielding(es) :: e != map[]
  {
    if es != [] {
      YieldingShape(es[..|es| - 1]);
    }
  }

  /** The last map kept is the last non-empty one. */
  lemma {:induction false} YieldingLast(es: seq<LogEntry>, i: nat)
    requires i < |es| && es[i] != map[]
    requires forall j | i < j < |es| :: es[j] == map[]
    ensures Yielding(es) != [] && Yielding(es)[|Yielding(es)| - 1] == es[i]
  {
    var init := es[..|es| - 1];
    if i < |es| - 1 {
      forall j | i < j < |init| ensures init[j] == map[] {
        assert init[j] == es[j];
      }
      YieldingLast(init, i);
    }
  }

  /** With no non-empty map there is nothing to keep. */
  lemma {:induction false} YieldingNone(es: seq<LogEntry>)
    requires forall j | 0 <= j < |es| :: es[j] == map[]
    ensures Yielding(es) == []
  {
    if es != [] {
      var init := es[..|es| - 1];
      forall j | 0 <= j < |init| ensures init[j] == map[] {
        assert init[j] == es[j];
      }
      YieldingNone(init);
    }
  }

  /** Every entry the log yields is non-empty, and there is at most one per line. */
  lemma LogEntriesShape(lines: seq<string>)
    requires forall l | l in lines :: LineWellFormed(l)
    ensures |LogEntries(lines)| <= |lines|
    ensures forall e | e in LogEntries(lines) :: e != map[]
  {
    YieldingShape(LineEntries(lines));
  }

  /**
   * The latest statistics are the map of the last line that yields a pair,
   * and the fixed error map when no line does.
   */
  lemma LatestIsLastYieldingLine(lines: seq<string>, i: nat)
    requires forall l | l in lines :: LineWellFormed(l)
    requires i < |lines| && LineEntry(lines[i]) != map[]
    requires forall j | i < j < |lines| :: LineEntry(lines[j]) == map[]
    ensures GetLatestStats(LogEntries(lines)) == LineEntry(lines[i])
  {
    YieldingLast(LineEntries(lines), i);
  }

  lemma LatestWhenNoLineYields(lines: seq<string>)
    requires forall l | l in lines :: LineWellFormed(l)
    requires forall j | 0 <= j < |lines| :: LineEntry(lines[j]) == map[]
    ensures GetLatestStats(LogEntries(lines)) == NoEntries
    ensures LogEntries(lines) == []
  {
    YieldingNone(LineEntries(lines));
  }
}
