/**
 * The two text helpers `Database` applies to the head of a data file
 * (src/timelineData.py): extracting a leading `{...}` JSON block, and
 * deciding whether a CSV line is a header row.
 */
module DatabaseText {

  // ---------------------------------------------------------------------------
  // The leading JSON block
  // ---------------------------------------------------------------------------

  /**
   * What the brace scanner finds at the head of a file: no block (the file
   * does not start with `{`), a balanced block, or braces that never balance
   * before the end of the file.
   */
  datatype JsonScan = NoBlock | Block(text: string) | Unterminated

  /** Opening braces minus closing braces. */
  function Depth(s: string): int
  {
    if s == [] then 0
    else Depth(s[..|s| - 1]) + (if s[|s| - 1] == '{' then 1 else if s[|s| - 1] == '}' then -1 else 0)
  }

  /** `text` starts with `{` and its brace depth first returns to zero at its very end. */
  ghost predicate BalancedBlock(text: string)
  {
    && |text| > 0 && text[0] == '{' && Depth(text) == 0
    && forall j :: 0 < j < |text| ==> Depth(text[..j]) > 0
  }

  /**
   * The brace-depth scanner.  The file is read one character at a time; a
   * file that does not start with `{` yields no block (the file is rewound).
   */
  method GetJsonString(file: string) returns (r: JsonScan)
    ensures r == NoBlock <==> |file| == 0 || file[0] != '{'
    ensures r.Block? ==> r.text <= file && BalancedBlock(r.text)
    ensures r == Unterminated ==> forall j :: 0 < j <= |file| ==> Depth(file[..j]) > 0
  {
    if |file| == 0 || file[0] != '{' {
      return NoBlock;
    }
    var jsonStr := "{";
    var matchParentheses := 1;
    var pos := 1;
    assert file[..1] == [file[0]];
    while matchParentheses > 0
      invariant 1 <= pos <= |file|
      invariant jsonStr == file[..pos]
      invariant matchParentheses == Depth(jsonStr)
      invariant forall j :: 0 < j < pos ==> Depth(file[..j]) > 0
      decreases |file| - pos
    {
      if pos == |file| {
        return Unterminated;
      }
      var c := file[pos];
      if c == '{' {
        matchParentheses := matchParentheses + 1;
      } else if c == '}' {
        matchParentheses := matchParentheses - 1;
      }
      assert file[..pos + 1] == jsonStr + [c];
      jsonStr := jsonStr + [c];
      pos := pos + 1;
    }
    forall j | 0 < j < |jsonStr|
      ensures Depth(jsonStr[..j]) > 0
    {
      assert jsonStr[..j] == file[..j];
    }
    return Block(jsonStr);
  }

  /** No prefix of the file other than the block found is a balanced block. */
  lemma BalancedPrefixUnique(file: string, text: string, a: string)
    requires text <= file && BalancedBlock(text)
    requires a <= file && |a| != |text|
    ensures !BalancedBlock(a)
  {
    if |a| < |text| {
      assert text[..|a|] == a;
    } else {
      assert a[..|text|] == text;
    }
  }

  /** When the scanner reports unbalanced braces, no prefix of the file is a balanced block. */
  lemma UnterminatedHasNoBlock(file: string, a: string)
    requires forall j :: 0 < j <= |file| ==> Depth(file[..j]) > 0
    requires a <= file
    ensures !BalancedBlock(a)
  {
    if |a| > 0 {
      assert file[..|a|] == a;
    }
  }

  // ---------------------------------------------------------------------------
  // Numbers
  // ---------------------------------------------------------------------------

  predicate IsDigit(c: char)
  {
    '0' <= c <= '9'
  }

  predicate AllDigits(s: string)
  {
    forall j :: 0 <= j < |s| ==> IsDigit(s[j])
  }

  /** The length of the longest all-digit prefix of `s`. */
  function LeadingDigits(s: string): (n: nat)
    ensures n <= |s| && AllDigits(s[..n])
    ensures n < |s| ==> !IsDigit(s[n])
  {
    if s == [] || !IsDigit(s[0]) then 0
    else
      var n := 1 + LeadingDigits(s[1..]);
      assert s[..n] == [s[0]] + s[1..][..n - 1];
      n
  }

  /** An all-digit prefix is never longer than `LeadingDigits`. */
  lemma {:induction false} LeadingDigitsIsLongest(s: string, m: nat)
    requires m <= |s| && AllDigits(s[..m])
    ensures m <= LeadingDigits(s)
  {
    if m > 0 {
      assert IsDigit(s[..m][0]);
      assert s[1..][..m - 1] == s[..m][1..];
      LeadingDigitsIsLongest(s[1..], m - 1);
    }
  }

  /** The number test, scanned by hand: an optional `-`, digits, then optionally `.` and more digits. */
  predicate IsNumber(s: string)
  {
    var body := if |s| > 0 && s[0] == '-' then s[1..] else s;
    var n := LeadingDigits(body);
    n > 0 && (n == |body| || (body[n] == '.' && AllDigits(body[n + 1..])))
  }

  /**
   * The language of the regular expression `-?[0-9]+\.?[0-9]*`, split at
   * `k` (after the sign) and `i` (after the first run of digits).
   */
  ghost predicate ShapeAt(s: string, k: nat, i: nat)
  {
    && k < i <= |s|
    && (k == 0 || (k == 1 && s[0] == '-'))
    && AllDigits(s[k..i])
    && (AllDigits(s[i..]) || (i < |s| && s[i] == '.' && AllDigits(s[i + 1..])))
  }

  ghost predicate NumberShape(s: string)
  {
    exists k: nat, i: nat :: ShapeAt(s, k, i)
  }

  /** The hand-coded number test accepts exactly the regular expression's number language. */
  lemma IsNumberIffShape(s: string)
    ensures IsNumber(s) <==> NumberShape(s)
  {
    if IsNumber(s) {
      NumberHasShape(s);
    }
    if NumberShape(s) {
      var k: nat, i: nat :| ShapeAt(s, k, i);
      ShapeIsNumber(s, k, i);
    }
  }

  lemma NumberHasShape(s: string)
    requires IsNumber(s)
    ensures NumberShape(s)
  {
    var k := if |s| > 0 && s[0] == '-' then 1 else 0;
    var body := s[k..];
    var n := LeadingDigits(body);
    assert body[..n] == s[k..k + n];
    if n == |body| {
      assert s[k + n..] == [];
    } else {
      assert s[k + n] == '.' && s[k + n + 1..] == body[n + 1..];
    }
    assert ShapeAt(s, k, k + n);
  }

  lemma ShapeIsNumber(s: string, k: nat, i: nat)
    requires ShapeAt(s, k, i)
    ensures IsNumber(s)
  {
    if k == 0 {
      assert IsDigit(s[0..i][0]);
    }
    var body := s[k..];
    assert body[..i - k] == s[k..i];
    LeadingDigitsIsLongest(body, i - k);
    if AllDigits(s[i..]) {
      assert body == s[k..i] + s[i..];
      assert AllDigits(body);
      LeadingDigitsIsLongest(body, |body|);
    } else {
      assert body[i - k] == '.';
      assert body[i - k + 1..] == s[i + 1..];
    }
  }

  /** A number holds no delimiter and no line break. */
  lemma NumberChars(s: string, j: nat)
    requires IsNumber(s) && j < |s|
    ensures s[j] != ',' && s[j] != '\t' && s[j] != '\n'
  {
    var k := if |s| > 0 && s[0] == '-' then 1 else 0;
    var body := s[k..];
    var n := LeadingDigits(body);
    if j >= k {
      assert s[j] == body[j - k];
      if j - k < n {
        assert body[..n][j - k] == body[j - k];
      } else if j - k > n {
        assert body[n + 1..][j - k - n - 1] == body[j - k];
      }
    }
  }

  // ---------------------------------------------------------------------------
  // Header detection
  // ---------------------------------------------------------------------------

  predicate IsDelim(c: char)
  {
    c == ',' || c == '\t'
  }

  /** The index of the first delimiter at or after `start`, or `|line|` when there is none. */
  function NextDelim(line: string, start: nat): (e: nat)
    requires start <= |line|
    ensures start <= e <= |line|
    ensures e < |line| ==> IsDelim(line[e])
    ensures forall j :: start <= j < e ==> !IsDelim(line[j])
    decreases |line| - start
  {
    if start == |line| || IsDelim(line[start]) then start else NextDelim(line, start + 1)
  }

  /**
   * The field starting at `start` is entirely a number that the regular
   * expression would find: the first field counts only when a delimiter
   * follows it, the last only when a delimiter precedes it (the line's final
   * newline aside), and every field in between counts.
   */
  predicate FieldNumeric(line: string, start: nat, first: bool)
    requires start <= |line|
  {
    var e := NextDelim(line, start);
    var field := line[start..e];
    if e < |line| then
      IsNumber(field)
    else
      && !first
      && (IsNumber(field) || (|field| > 0 && field[|field| - 1] == '\n' && IsNumber(field[..|field| - 1])))
  }

  /** Scans the fields from `start` on for one that `FieldNumeric` accepts. */
  predicate NumericField(line: string, start: nat, first: bool)
    requires start <= |line|
    decreases |line| - start
  {
    || FieldNumeric(line, start, first)
    || (NextDelim(line, start) < |line| && NumericField(line, NextDelim(line, start) + 1, false))
  }

  /** A line is a header unless one of its delimited fields is entirely a number. */
  predicate IsHeader(line: string)
  {
    !NumericField(line, 0, true)
  }

  /** Where the regular expression's `$` matches: the end of the line, or just before a final newline. */
  ghost predicate AtEnd(line: string, q: nat)
  {
    q == |line| || (q == |line| - 1 && line[q] == '\n')
  }

  /**
   * The regular expression `^N[,\t]|[,\t]N[,\t]|[,\t]N$` (N the number
   * language) matches at `p` with its number ending at `q`.
   */
  ghost predicate MatchesAt(line: string, p: nat, q: nat)
  {
    && p < q <= |line|
    && (|| (p == 0 && q < |line| && NumberShape(line[0..q]) && IsDelim(line[q]))
        || (IsDelim(line[p]) && q < |line| && NumberShape(line[p + 1..q]) && IsDelim(line[q]))
        || (IsDelim(line[p]) && NumberShape(line[p + 1..q]) && AtEnd(line, q)))
  }

  /** The regular-expression search succeeds at some position `p >= lo`. */
  ghost predicate SearchFrom(line: string, lo: nat)
  {
    exists p: nat, q: nat :: lo <= p && MatchesAt(line, p, q)
  }

  /** A number match cannot run over a delimiter. */
  lemma NumberBeforeDelim(line: string, a: nat, q: nat, e: nat)
    requires a <= q <= |line| && a <= e < |line| && IsDelim(line[e])
    requires IsNumber(line[a..q])
    ensures q <= e
  {
    if q > e {
      assert line[a..q][e - a] == line[e];
      NumberChars(line[a..q], e - a);
    }
  }

  /** The position the search starts from when the scan is at the field starting at `start`. */
  function SearchStart(start: nat, first: bool): nat
  {
    if first || start == 0 then 0 else start - 1
  }

  /** A numeric field is a match of the regular expression from its leading delimiter. */
  lemma FieldMatchSound(line: string, start: nat, first: bool)
    requires start <= |line|
    requires first ==> start == 0
    requires !first ==> 0 < start && IsDelim(line[start - 1])
    requires FieldNumeric(line, start, first)
    ensures SearchFrom(line, SearchStart(start, first))
  {
    var e := NextDelim(line, start);
    var field := line[start..e];
    if IsNumber(field) {
      IsNumberIffShape(field);
      if e < |line| && first {
        assert MatchesAt(line, 0, e);
      } else {
        assert MatchesAt(line, start - 1, e);
      }
    } else {
      var q := e - 1;
      assert field[..|field| - 1] == line[start..q];
      IsNumberIffShape(line[start..q]);
      assert MatchesAt(line, start - 1, q);
    }
  }

  /** A match of the first alternative is the first field, followed by a delimiter. */
  lemma LeadingMatch(line: string, start: nat, first: bool, q: nat)
    requires start <= |line|
    requires first ==> start == 0
    requires !first ==> 0 < start && IsDelim(line[start - 1])
    requires SearchStart(start, first) == 0
    requires 0 < q < |line| && NumberShape(line[0..q]) && IsDelim(line[q])
    ensures FieldNumeric(line, start, first)
  {
    IsNumberIffShape(line[0..q]);
    NumberChars(line[0..q], 0);
    assert start == 0;
    var e := NextDelim(line, 0);
    NumberBeforeDelim(line, 0, q, e);
  }

  /** A match of the second or third alternative from the delimiter before a field is that field. */
  lemma DelimitedMatch(line: string, start: nat, q: nat)
    requires 0 < start <= q <= |line| && IsDelim(line[start - 1])
    requires NumberShape(line[start..q])
    requires (q < |line| && IsDelim(line[q])) || AtEnd(line, q)
    ensures FieldNumeric(line, start, false)
  {
    var e := NextDelim(line, start);
    IsNumberIffShape(line[start..q]);
    if e < |line| {
      NumberBeforeDelim(line, start, q, e);
    }
    if q < e {
      assert line[start..e][..q - start] == line[start..q];
    }
  }

  /** A match starting before the field's end lies in that field, which is then numeric. */
  lemma FieldMatchComplete(line: string, start: nat, first: bool, p: nat, q: nat)
    requires start <= |line|
    requires first ==> start == 0
    requires !first ==> 0 < start && IsDelim(line[start - 1])
    requires SearchStart(start, first) <= p < NextDelim(line, start) && MatchesAt(line, p, q)
    ensures FieldNumeric(line, start, first)
  {
    if p == 0 && q < |line| && NumberShape(line[0..q]) && IsDelim(line[q]) {
      LeadingMatch(line, start, first, q);
    } else {
      DelimitedMatch(line, start, q);
    }
  }

  /** Whenever the scan finds a numeric field, the regular-expression search succeeds. */
  lemma {:induction false} ScanSound(line: string, start: nat, first: bool)
    requires start <= |line|
    requires first ==> start == 0
    requires !first ==> 0 < start && IsDelim(line[start - 1])
    requires NumericField(line, start, first)
    ensures SearchFrom(line, SearchStart(start, first))
    decreases |line| - start
  {
    var e := NextDelim(line, start);
    if FieldNumeric(line, start, first) {
      FieldMatchSound(line, start, first);
    } else {
      ScanSound(line, e + 1, false);
      var p: nat, q: nat :| e <= p && MatchesAt(line, p, q);
      assert SearchStart(start, first) <= p;
    }
  }

  /** Whenever the regular-expression search succeeds, the scan finds a numeric field. */
  lemma {:induction false} ScanComplete(line: string, start: nat, first: bool)
    requires start <= |line|
    requires first ==> start == 0
    requires !first ==> 0 < start && IsDelim(line[start - 1])
    requires SearchFrom(line, SearchStart(start, first))
    ensures NumericField(line, start, first)
    decreases |line| - start
  {
    var e := NextDelim(line, start);
    var p: nat, q: nat :| SearchStart(start, first) <= p && MatchesAt(line, p, q);
    if p < e {
      FieldMatchComplete(line, start, first, p, q);
    } else {
      assert SearchFrom(line, e);
      ScanComplete(line, e + 1, false);
    }
  }

  /** `isHeader` is true exactly when the header regular expression finds no match. */
  lemma IsHeaderIffNoMatch(line: string)
    ensures IsHeader(line) <==> !SearchFrom(line, 0)
  {
    if NumericField(line, 0, true) {
      ScanSound(line, 0, true);
    }
    if SearchFrom(line, 0) {
      ScanComplete(line, 0, true);
    }
  }

  /** A line with no delimiter is a header, even when it is a single number. */
  lemma {:induction false} SingleColumnIsHeader(line: string)
    requires forall j :: 0 <= j < |line| ==> !IsDelim(line[j])
    ensures IsHeader(line)
  {
    assert NextDelim(line, 0) == |line|;
  }
}
