/**
 * Turning one line of the record file or of the pairs file into fields:
 * `boost::trim`, `boost::split` on ',' with token compression, and
 * `boost::lexical_cast<boost::uint32_t>` of an identifier token.
 */
module LineParsing {
  import opened Records

  // ---------------------------------------------------------------------------
  // Trimming

  /** The characters `std::isspace` accepts in the classic locale: ' ' and '\t'..'\r'. */
  predicate IsSpace(ch: char) {
    ch == ' ' || '\t' <= ch <= '\r'
  }

  predicate AllSpace(s: string) {
    forall i :: 0 <= i < |s| ==> IsSpace(s[i])
  }

  /** True when `s` does not end with white space. */
  predicate EndsTidy(s: string) {
    s == [] || !IsSpace(s[|s| - 1])
  }

  /** True when `s` neither starts nor ends with white space. */
  predicate Tidy(s: string) {
    s == [] || (!IsSpace(s[0]) && !IsSpace(s[|s| - 1]))
  }

  /** The number of white-space characters `s` starts with. */
  function LeadingSpace(s: string): (n: nat)
    ensures n <= |s|
    ensures forall k :: 0 <= k < n ==> IsSpace(s[k])
    ensures n < |s| ==> !IsSpace(s[n])
  {
    if s != [] && IsSpace(s[0]) then 1 + LeadingSpace(s[1..]) else 0
  }

  /** The length of `s` without its trailing white space. */
  function TextEnd(s: string): (n: nat)
    ensures n <= |s|
    ensures forall k :: n <= k < |s| ==> IsSpace(s[k])
    ensures n > 0 ==> !IsSpace(s[n - 1])
  {
    if s != [] && IsSpace(s[|s| - 1]) then TextEnd(s[..|s| - 1]) else |s|
  }

  /** `r` occurs in `s` at position `i`. */
  predicate InfixAt(r: string, s: string, i: nat) {
    i + |r| <= |s| && forall k :: 0 <= k < |r| ==> r[k] == s[i + k]
  }

  /**
   * `boost::trim`: the line without its leading and trailing white space. The
   * result is a piece of the line, neither starts nor ends with white space, and
   * is empty exactly when the line is all white space.
   */
  function Trim(s: string): (r: string)
    ensures Tidy(r)
    ensures r == [] <==> AllSpace(s)
    ensures exists i: nat :: InfixAt(r, s, i)
  {
    var a := LeadingSpace(s);
    var e := TextEnd(s[a..]);
    TrimFacts(s, a, e);
    SliceInfix(s, a, a + e);
    s[a..a + e]
  }

  lemma TrimFacts(s: string, a: nat, e: nat)
    requires a == LeadingSpace(s) && a <= |s| && e == TextEnd(s[a..])
    ensures a + e <= |s|
    ensures Tidy(s[a..a + e])
    ensures s[a..a + e] == [] <==> AllSpace(s)
  {
    var t := s[a..];
    assert |t| == |s| - a;
    assert e <= |t|;
    TrimNonEmpty(s, a, e);
    TrimTidy(s, a, e);
  }

  lemma SliceInfix(s: string, i: nat, j: nat)
    requires i <= j <= |s|
    ensures InfixAt(s[i..j], s, i)
  {
  }

  lemma TrimNonEmpty(s: string, a: nat, e: nat)
    requires a == LeadingSpace(s) && a <= |s| && e == TextEnd(s[a..])
    ensures e == 0 <==> AllSpace(s)
  {
    if a < |s| {
      var t := s[a..];
      assert t[0] == s[a];
      assert !IsSpace(s[a]);
    }
  }

  lemma TrimTidy(s: string, a: nat, e: nat)
    requires a == LeadingSpace(s) && a <= |s| && e == TextEnd(s[a..])
    ensures Tidy(s[a..a + e])
  {
    if e > 0 {
      var t := s[a..];
      var r := s[a..a + e];
      assert r[0] == t[0] && r[e - 1] == t[e - 1];
    }
  }

  lemma {:induction false} LeadingSpacePadding(pre: string, t: string)
    requires AllSpace(pre)
    requires t == [] || !IsSpace(t[0])
    ensures LeadingSpace(pre + t) == |pre|
    decreases |pre|
  {
    if pre != [] {
      assert (pre + t)[1..] == pre[1..] + t;
      LeadingSpacePadding(pre[1..], t);
    } else {
      assert pre + t == t;
    }
  }

  lemma {:induction false} TextEndPadding(t: string, post: string)
    requires AllSpace(post)
    requires t == [] || !IsSpace(t[|t| - 1])
    ensures TextEnd(t + post) == |t|
    decreases |post|
  {
    if post != [] {
      var p' := post[..|post| - 1];
      assert (t + post)[..|t + post| - 1] == t + p';
      TextEndPadding(t, p');
    } else {
      assert t + post == t;
    }
  }

  /** Trimming removes exactly the white-space padding around a tidy text. */
  lemma TrimPadding(pre: string, s: string, post: string)
    requires AllSpace(pre) && AllSpace(post) && Tidy(s)
    ensures Trim(pre + s + post) == s
  {
    var line := pre + s + post;
    if s == [] {
      assert line == pre + post;
      assert AllSpace(line);
    } else {
      assert line == pre + (s + post);
      LeadingSpacePadding(pre, s + post);
      var a := |pre|;
      assert line[a..] == s + post;
      TextEndPadding(s, post);
      assert line[a..a + |s|] == s;
    }
  }

  // ---------------------------------------------------------------------------
  // Splitting on ',' with token compression

  predicate CommaFree(s: string) {
    forall k :: 0 <= k < |s| ==> s[k] != ','
  }

  /** The position of the first ',' in `s`, or `|s|` when there is none. */
  function CommaIndex(s: string): (i: nat)
    ensures i <= |s|
    ensures forall k :: 0 <= k < i ==> s[k] != ','
    ensures i < |s| ==> s[i] == ','
  {
    if s == [] || s[0] == ',' then 0 else 1 + CommaIndex(s[1..])
  }

  /** The length of the run of commas `s` starts with. */
  function LeadingCommas(s: string): (n: nat)
    ensures n <= |s|
    ensures forall k :: 0 <= k < n ==> s[k] == ','
    ensures n < |s| ==> s[n] != ','
  {
    if s != [] && s[0] == ',' then 1 + LeadingCommas(s[1..]) else 0
  }

  /** The text before the first comma: the first token. */
  function Token(s: string): (r: string)
    ensures CommaFree(r)
  {
    s[..CommaIndex(s)]
  }

  /** `t` without the run of commas it starts with. */
  function SkipCommas(t: string): (r: string)
    ensures |r| <= |t|
    ensures t != [] && t[0] == ',' ==> |r| < |t|
  {
    t[LeadingCommas(t)..]
  }

  /** What follows the first run of commas: the text the remaining tokens come from. */
  function AfterSeparator(s: string): (r: string)
    requires CommaIndex(s) < |s|
    ensures |r| < |s|
  {
    assert s[CommaIndex(s)..][0] == ',';
    SkipCommas(s[CommaIndex(s)..])
  }

  /**
   * `boost::split(tokens, s, is_any_of(","), token_compress_on)`: the maximal
   * comma-free pieces of `s`, where a run of commas separates two pieces.
   * A leading or a trailing run still yields an empty first or last token.
   */
  function Split(s: string): (r: seq<string>)
    ensures |r| >= 1
    ensures forall k :: 0 <= k < |r| ==> CommaFree(r[k])
    ensures CommaFree(s) ==> r == [s]
    decreases |s|
  {
    if CommaIndex(s) == |s| then
      assert s[..|s|] == s;
      [s]
    else
      [Token(s)] + Split(AfterSeparator(s))
  }

  /** The fields written back with one comma between neighbours. */
  function Join(ts: seq<string>): string
    requires |ts| >= 1
  {
    if |ts| == 1 then ts[0] else ts[0] + "," + Join(ts[1..])
  }

  /**
   * A field list that `Split` gives back unchanged: no field holds a comma, and
   * only the first and the last field may be empty (an empty inner field would
   * be a run of commas, which is compressed).
   */
  predicate Joinable(ts: seq<string>) {
    |ts| >= 1 &&
    (forall k :: 0 <= k < |ts| ==> CommaFree(ts[k])) &&
    (forall k :: 0 < k < |ts| - 1 ==> ts[k] != "")
  }

  lemma {:induction false} JoinStart(ts: seq<string>)
    requires Joinable(ts)
    ensures |Join(ts)| >= |ts[0]| && Join(ts)[..|ts[0]|] == ts[0]
    ensures |ts| > 1 ==> Join(ts) == ts[0] + "," + Join(ts[1..])
    ensures |ts| > 1 || Join(ts) == ts[0]
  {
  }

  /** `Split` inverts `Join` on joinable field lists. */
  lemma {:induction false} SplitJoin(ts: seq<string>)
    requires Joinable(ts)
    ensures Split(Join(ts)) == ts
    decreases |ts|
  {
    if |ts| == 1 {
      assert Join(ts) == ts[0];
    } else {
      assert Joinable(ts[1..]);
      SplitJoin(ts[1..]);
      SplitJoinStep(ts);
    }
  }

  lemma SplitJoinStep(ts: seq<string>)
    requires Joinable(ts) && |ts| > 1
    requires Split(Join(ts[1..])) == ts[1..]
    ensures Split(Join(ts)) == ts
  {
    var rest := ts[1..];
    JoinStart(ts);
    JoinHead(rest);
    SplitAtComma(ts[0], Join(rest));
    assert [ts[0]] + rest == ts;
  }

  /** A comma-free first field followed by one comma splits off as the first token. */
  lemma SplitAtComma(a: string, tail: string)
    requires CommaFree(a) && (tail == [] || tail[0] != ',')
    ensures Split(a + "," + tail) == [a] + Split(tail)
  {
    var s := a + "," + tail;
    CommaIndexAfter(a, tail);
    TokenAtComma(a, tail);
    CommaRunAt(a, tail);
    AfterOneComma(s, tail);
    SplitCons(s, a, tail);
  }

  lemma SplitCons(s: string, a: string, tail: string)
    requires CommaIndex(s) < |s| && Token(s) == a && AfterSeparator(s) == tail
    ensures Split(s) == [a] + Split(tail)
  {
  }

  lemma CommaRunAt(a: string, tail: string)
    ensures (a + "," + tail)[|a|..] == "," + tail
  {
    DropPrefix(a, "," + tail);
    assert a + "," + tail == a + ("," + tail);
  }

  lemma TokenAtComma(a: string, tail: string)
    requires CommaIndex(a + "," + tail) == |a|
    ensures Token(a + "," + tail) == a
  {
    assert (a + "," + tail)[..|a|] == a;
  }

  lemma AfterOneComma(s: string, tail: string)
    requires CommaIndex(s) < |s| && s[CommaIndex(s)..] == "," + tail
    requires tail == [] || tail[0] != ','
    ensures AfterSeparator(s) == tail
  {
    SkipOneComma(tail);
  }

  lemma DropPrefix(a: string, b: string)
    ensures (a + b)[|a|..] == b
  {
  }

  lemma SkipOneComma(tail: string)
    requires tail == [] || tail[0] != ','
    ensures SkipCommas("," + tail) == tail
  {
    OneLeadingComma(tail);
    assert ("," + tail)[1..] == tail;
  }

  /** A joined list whose first field is non-empty, or which is a single field, does not start with a comma. */
  lemma JoinHead(ts: seq<string>)
    requires Joinable(ts) && (|ts| == 1 || ts[0] != "")
    ensures Join(ts) == [] || Join(ts)[0] != ','
  {
    JoinStart(ts);
    if ts[0] != "" {
      assert Join(ts)[0] == Join(ts)[..|ts[0]|][0];
    }
  }

  /** A run of `n` commas. */
  function Commas(n: nat): (r: string)
    ensures |r| == n && forall k :: 0 <= k < n ==> r[k] == ','
  {
    if n == 0 then [] else "," + Commas(n - 1)
  }

  /**
   * Token compression: a run of one or more commas after a comma-free first field
   * separates it from the rest exactly as a single comma does.
   */
  lemma SplitAtCommaRun(a: string, n: nat, tail: string)
    requires CommaFree(a) && n >= 1 && (tail == [] || tail[0] != ',')
    ensures Split(a + Commas(n) + tail) == [a] + Split(tail)
  {
    var run := Commas(n) + tail;
    var s := a + run;
    assert a + Commas(n) + tail == s;
    CommaIndexAt(a, run);
    TokenAt(a, run);
    DropPrefix(a, run);
    SkipCommaRun(n, tail);
    AfterRun(s, run, tail);
    SplitCons(s, a, tail);
  }

  lemma CommaIndexAt(a: string, b: string)
    requires CommaFree(a) && b != [] && b[0] == ','
    ensures CommaIndex(a + b) == |a|
  {
    var s := a + b;
    assert s[|a|] == ',';
    assert forall k :: 0 <= k < |a| ==> s[k] == a[k];
  }

  lemma TokenAt(a: string, b: string)
    requires CommaIndex(a + b) == |a|
    ensures Token(a + b) == a
  {
    assert (a + b)[..|a|] == a;
  }

  lemma AfterRun(s: string, run: string, tail: string)
    requires CommaIndex(s) < |s| && s[CommaIndex(s)..] == run && SkipCommas(run) == tail
    ensures AfterSeparator(s) == tail
  {
  }

  lemma {:induction false} LeadingCommaRun(n: nat, tail: string)
    requires tail == [] || tail[0] != ','
    ensures LeadingCommas(Commas(n) + tail) == n
    decreases n
  {
    if n > 0 {
      assert (Commas(n) + tail)[1..] == Commas(n - 1) + tail;
      LeadingCommaRun(n - 1, tail);
    } else {
      assert Commas(n) + tail == tail;
    }
  }

  lemma SkipCommaRun(n: nat, tail: string)
    requires tail == [] || tail[0] != ','
    ensures SkipCommas(Commas(n) + tail) == tail
  {
    LeadingCommaRun(n, tail);
    DropPrefix(Commas(n), tail);
  }

  lemma OneLeadingComma(tail: string)
    requires tail == [] || tail[0] != ','
    ensures LeadingCommas("," + tail) == 1
  {
    assert ("," + tail)[1..] == tail;
  }

  lemma CommaIndexAfter(a: string, b: string)
    requires CommaFree(a)
    ensures CommaIndex(a + "," + b) == |a|
  {
    var s := a + "," + b;
    var i := CommaIndex(s);
    assert s[|a|] == ',';
    assert forall k :: 0 <= k < |a| ==> s[k] == a[k];
  }

  // ---------------------------------------------------------------------------
  // Decimal identifiers

  predicate IsDigit(ch: char) {
    '0' <= ch <= '9'
  }

  predicate AllDigits(s: string) {
    forall i :: 0 <= i < |s| ==> IsDigit(s[i])
  }

  function DigitValue(ch: char): nat
    requires IsDigit(ch)
  {
    (ch as int) - ('0' as int)
  }

  function DigitChar(d: nat): char
    requires d < 10
  {
    (('0' as int) + d) as char
  }

  /** The number a string of decimal digits denotes (leading zeros allowed). */
  function DecimalValue(s: string): nat
    requires AllDigits(s)
  {
    if s == [] then 0 else 10 * DecimalValue(s[..|s| - 1]) + DigitValue(s[|s| - 1])
  }

  /**
   * `lexical_cast<boost::uint32_t>`: a non-empty string of decimal digits whose value
   * fits in 32 bits; any other token makes the cast throw (`None`).
   */
  function ParseId(tok: string): (r: Option<Id>)
    ensures r.Some? ==> tok != [] && AllDigits(tok)
    ensures r.Some? ==> r.value as nat == DecimalValue(tok)
  {
    if tok != [] && AllDigits(tok) && DecimalValue(tok) < UINT32_LIMIT then
      Some(DecimalValue(tok) as Id)
    else
      None
  }

  /** The decimal text of `n`, as `operator<<` writes an identifier. */
  function Show(n: nat): string
  {
    if n < 10 then [DigitChar(n)] else Show(n / 10) + [DigitChar(n % 10)]
  }

  lemma {:induction false} ShowDigits(n: nat)
    ensures Show(n) != [] && AllDigits(Show(n)) && DecimalValue(Show(n)) == n
    ensures IsDigit(Show(n)[0])
    decreases n
  {
    if n >= 10 {
      ShowDigits(n / 10);
      var s := Show(n);
      assert s[..|s| - 1] == Show(n / 10);
      assert s[0] == Show(n / 10)[0];
    }
  }

  /** Every 32-bit identifier, written in decimal, parses back to itself. */
  lemma ParseShow(id: Id)
    ensures ParseId(Show(id as nat)) == Some(id)
  {
    ShowDigits(id as nat);
  }

  lemma {:induction false} DecimalLeadingZero(t: string)
    requires AllDigits(t)
    ensures AllDigits("0" + t) && DecimalValue("0" + t) == DecimalValue(t)
    decreases |t|
  {
    var u := "0" + t;
    if t == [] {
      assert u[..0] == [];
    } else {
      assert u[..|u| - 1] == "0" + t[..|t| - 1];
      DecimalLeadingZero(t[..|t| - 1]);
      assert u[|u| - 1] == t[|t| - 1];
    }
  }

  /** A leading zero does not change what a token parses to. */
  lemma ParseLeadingZero(tok: string)
    requires tok != []
    ensures ParseId("0" + tok) == ParseId(tok)
  {
    if AllDigits(tok) {
      DecimalLeadingZero(tok);
    } else {
      var i :| 0 <= i < |tok| && !IsDigit(tok[i]);
      assert ("0" + tok)[i + 1] == tok[i];
    }
  }

  /** A token holding anything but digits is rejected. */
  lemma ParseRejectsNonDigit(tok: string, i: nat)
    requires i < |tok| && !IsDigit(tok[i])
    ensures ParseId(tok) == None
  {
  }

  // ---------------------------------------------------------------------------
  // Whole lines

  /**
   * What one line of the record file contributes. `BadRecordId` is a first token
   * the cast rejects; `ShortRecord` is a line with a single token, whose missing
   * second token the source would read past the end of the token vector.
   */
  datatype RecordLine =
    | BlankRecord
    | Record(id: Id, sequence: string)
    | BadRecordId(token: string)
    | ShortRecord(token: string)
  {
    /** The line stops the load. */
    predicate Fails() {
      BadRecordId? || ShortRecord?
    }
  }

  /** What one line of the pairs file contributes; the failures as for record lines. */
  datatype PairLine =
    | BlankPair
    | Pair(first: Id, second: Id)
    | BadPairId(token: string)
    | ShortPair(token: string)
  {
    predicate Fails() {
      BadPairId? || ShortPair?
    }
  }

  /**
   * One record-file line: trimmed, skipped when empty, otherwise split; the id is
   * the first token and the sequence the second; further tokens are ignored.
   */
  function ParseRecordLine(line: string): (r: RecordLine)
    ensures r.BlankRecord? <==> AllSpace(line)
    ensures r.Record? ==> CommaFree(r.sequence)
    ensures r.ShortRecord? ==> CommaFree(Trim(line))
  {
    var t := Trim(line);
    if t == [] then BlankRecord
    else
      var tokens := Split(t);
      match ParseId(tokens[0])
      case None => BadRecordId(tokens[0])
      case Some(id) =>
        if |tokens| < 2 then ShortRecord(tokens[0]) else Record(id, tokens[1])
  }

  /** One pairs-file line: trimmed, skipped when empty, otherwise two ids. */
  function ParsePairLine(line: string): (r: PairLine)
    ensures r.BlankPair? <==> AllSpace(line)
    ensures r.ShortPair? ==> CommaFree(Trim(line))
  {
    var t := Trim(line);
    if t == [] then BlankPair
    else
      var tokens := Split(t);
      match ParseId(tokens[0])
      case None => BadPairId(tokens[0])
      case Some(a) =>
        if |tokens| < 2 then ShortPair(tokens[0])
        else
          match ParseId(tokens[1])
          case None => BadPairId(tokens[1])
          case Some(b) => Pair(a, b)
  }

  /**
   * A record line written as `id,sequence[,more…]`, padded with white space,
   * reads back as that id and sequence: the trailing fields are ignored.
   */
  lemma RecordLineRoundTrip(pre: string, id: Id, sequence: string, more: seq<string>, post: string)
    requires AllSpace(pre) && AllSpace(post)
    requires Joinable([Show(id as nat), sequence] + more)
    requires var ts := [Show(id as nat), sequence] + more; EndsTidy(ts[|ts| - 1])
    ensures ParseRecordLine(pre + Join([Show(id as nat), sequence] + more) + post) == Record(id, sequence)
  {
    var ts := [Show(id as nat), sequence] + more;
    var line := Join(ts);
    ShowDigits(id as nat);
    JoinTidy(ts);
    TrimPadding(pre, line, post);
    SplitJoin(ts);
    ParseShow(id);
  }

  /**
   * A pairs line written as `a,b[,more…]`, padded with white space, reads back as
   * the pair (a, b): the trailing fields are ignored.
   */
  lemma PairLineRoundTrip(pre: string, a: Id, b: Id, more: seq<string>, post: string)
    requires AllSpace(pre) && AllSpace(post)
    requires Joinable([Show(a as nat), Show(b as nat)] + more)
    requires var ts := [Show(a as nat), Show(b as nat)] + more; EndsTidy(ts[|ts| - 1])
    ensures ParsePairLine(pre + Join([Show(a as nat), Show(b as nat)] + more) + post) == Pair(a, b)
  {
    var ts := [Show(a as nat), Show(b as nat)] + more;
    var line := Join(ts);
    ShowDigits(a as nat);
    JoinTidy(ts);
    TrimPadding(pre, line, post);
    SplitJoin(ts);
    ParseShow(a);
    ParseShow(b);
  }

  /** A joined line ends in the last field's last character, or in the comma before an empty last field. */
  lemma {:induction false} JoinEnd(ts: seq<string>)
    requires Joinable(ts) && EndsTidy(ts[|ts| - 1])
    ensures Join(ts) == [] || !IsSpace(Join(ts)[|Join(ts)| - 1])
    decreases |ts|
  {
    if |ts| > 1 {
      var rest := ts[1..];
      var tail := Join(rest);
      assert Joinable(rest) && rest[|rest| - 1] == ts[|ts| - 1];
      JoinEnd(rest);
      assert Join(ts) == ts[0] + "," + tail;
      if tail == [] {
        assert Join(ts)[|Join(ts)| - 1] == ',';
      } else {
        assert Join(ts)[|Join(ts)| - 1] == tail[|tail| - 1];
      }
    }
  }

  lemma JoinTidy(ts: seq<string>)
    requires Joinable(ts) && ts[0] != [] && !IsSpace(ts[0][0]) && EndsTidy(ts[|ts| - 1])
    ensures Tidy(Join(ts)) && Join(ts) != []
  {
    JoinStart(ts);
    JoinEnd(ts);
    assert Join(ts)[0] == Join(ts)[..|ts[0]|][0];
  }
}
