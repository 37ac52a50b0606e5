/**
 * The spreadsheet formula engine of `src/core/formula.ts`: column letters, the
 * `{{TOKEN±K}}` substitutions of one formula, the `!&&format&&formula` cell
 * prefix, and the whole-matrix passes that give each cell its own row and column.
 */
module Formula {
  import opened Wrappers
  import opened JsString

  // ---------------------------------------------------------------------------
  // Column letters: bijective base 26 over 'A'..'Z'
  // ---------------------------------------------------------------------------

  predicate IsUpper(c: char) {
    'A' <= c <= 'Z'
  }

  predicate AllUpper(s: string) {
    forall i :: 0 <= i < |s| ==> IsUpper(s[i])
  }

  /** The bijective base-26 numeral of `n` ("" for 0, "A" for 1, "Z" for 26, "AA" for 27). */
  function Letters(n: nat): string
    decreases n
  {
    if n == 0 then "" else Letters((n - 1) / 26) + [('A' as int + (n - 1) % 26) as char]
  }

  /** The number a column name stands for: the decoder of `Letters`. */
  function LettersValue(s: string): nat
    requires AllUpper(s)
  {
    if s == [] then 0 else LettersValue(s[..|s| - 1]) * 26 + (s[|s| - 1] as int - 'A' as int + 1)
  }

  /** Decoding the name of a number gives the number back. */
  lemma {:induction false} LettersRoundTrip(n: nat)
    ensures AllUpper(Letters(n)) && LettersValue(Letters(n)) == n
    decreases n
  {
    if n > 0 {
      LettersRoundTrip((n - 1) / 26);
      var s := Letters(n);
      assert s[..|s| - 1] == Letters((n - 1) / 26);
    }
  }

  /** Every string of capital letters is the name of exactly the number it decodes to. */
  lemma {:induction false} ValueRoundTrip(s: string)
    requires AllUpper(s)
    ensures Letters(LettersValue(s)) == s
    decreases |s|
  {
    if s != [] {
      var init := s[..|s| - 1];
      ValueRoundTrip(init);
      var d := s[|s| - 1] as int - 'A' as int;
      assert (LettersValue(s) - 1) / 26 == LettersValue(init);
      assert (LettersValue(s) - 1) % 26 == d;
      assert s == init + [s[|s| - 1]];
    }
  }

  /**
   * The letter name of a column: "A" for every number below 1, otherwise the
   * non-empty capital-letter string whose bijective base-26 value is the number.
   */
  function ColumnLetter(n: int): (r: string)
    ensures r != [] && AllUpper(r)
    ensures n >= 1 ==> LettersValue(r) == n
    ensures n < 1 ==> r == "A"
  {
    if n < 1 then "A"
    else
      LettersRoundTrip(n);
      Letters(n)
  }

  /** A column name is determined by the number it stands for. */
  lemma ColumnLetterUnique(n: int, s: string)
    requires n >= 1 && AllUpper(s) && LettersValue(s) == n
    ensures ColumnLetter(n) == s
  {
    ValueRoundTrip(s);
  }

  /** The column names the engine documents for its boundary numbers. */
  lemma ColumnLetterExamples()
    ensures ColumnLetter(1) == "A" && ColumnLetter(26) == "Z" && ColumnLetter(27) == "AA"
    ensures ColumnLetter(52) == "AZ" && ColumnLetter(53) == "BA"
    ensures ColumnLetter(702) == "ZZ" && ColumnLetter(703) == "AAA"
    ensures ColumnLetter(0) == "A" && ColumnLetter(-1) == "A"
  {
    ColumnLetterUnique(1, "A");
    ColumnLetterUnique(26, "Z");
    ColumnLetterUnique(27, "AA");
    ColumnLetterUnique(52, "AZ");
    ColumnLetterUnique(53, "BA");
    ColumnLetterUnique(702, "ZZ");
    ColumnLetterUnique(703, "AAA");
  }

  /** `columnNumberToLetter`: the digit loop, least significant letter first. */
  method ColumnNumberToLetter(colNumber: int) returns (result: string)
    ensures result == ColumnLetter(colNumber)
  {
    if colNumber < 1 {
      return "A";
    }
    result := "";
    var num: nat := colNumber;
    while num > 0
      invariant Letters(num) + result == Letters(colNumber)
      decreases num
    {
      var remainder := (num - 1) % 26;
      result := [(65 + remainder) as char] + result;
      num := (num - 1) / 26;
    }
  }

  // ---------------------------------------------------------------------------
  // Base variables and the token map
  // ---------------------------------------------------------------------------

  /** The numbers a formula is evaluated against. */
  datatype BaseVariables = BaseVariables(currentColumn: int, currentRow: int, rowCount: int)

  /** The value stored under `key` in an insertion-ordered map: the first entry with that key. */
  function Lookup(entries: seq<(string, string)>, key: string): (r: Option<string>)
    ensures r.Some? <==> exists k :: 0 <= k < |entries| && entries[k].0 == key
  {
    if entries == [] then None
    else if entries[0].0 == key then Some(entries[0].1)
    else Lookup(entries[1..], key)
  }

  predicate KeysAreTokens(entries: seq<(string, string)>) {
    forall k :: 0 <= k < |entries| ==> |entries[k].0| > 0 && entries[k].0[0] == '{'
  }

  /**
   * `getVariables`: each base key in the order `CURRENT_COLUMN`, `CURRENT_ROW`,
   * `ROW_COUNT`, wrapped in double braces and mapped to its decimal text, then
   * `{{CURRENT_COLUMN_LETTER}}` mapped to the letter name of the column.
   */
  function GetVariables(bv: BaseVariables): (vars: seq<(string, string)>)
    ensures |vars| == 4 && KeysAreTokens(vars)
    ensures forall i, j :: 0 <= i < j < |vars| ==> vars[i].0 != vars[j].0
  {
    [ ("{{CURRENT_COLUMN}}", IntToString(bv.currentColumn)),
      ("{{CURRENT_ROW}}", IntToString(bv.currentRow)),
      ("{{ROW_COUNT}}", IntToString(bv.rowCount)),
      ("{{CURRENT_COLUMN_LETTER}}", ColumnLetter(bv.currentColumn)) ]
  }

  /** Each base key is mapped to its decimal text and the letter key to the column's letter name. */
  lemma GetVariablesLookup(bv: BaseVariables)
    ensures Lookup(GetVariables(bv), "{{CURRENT_COLUMN}}") == Some(IntToString(bv.currentColumn))
    ensures Lookup(GetVariables(bv), "{{CURRENT_ROW}}") == Some(IntToString(bv.currentRow))
    ensures Lookup(GetVariables(bv), "{{ROW_COUNT}}") == Some(IntToString(bv.rowCount))
    ensures Lookup(GetVariables(bv), "{{CURRENT_COLUMN_LETTER}}") == Some(ColumnLetter(bv.currentColumn))
  {
    var vars := GetVariables(bv);
    var tail2 := vars[1..][1..];
    assert tail2 == [vars[2], vars[3]];
    assert Lookup(tail2, "{{ROW_COUNT}}") == Some(IntToString(bv.rowCount));
    assert tail2[1..] == [vars[3]];
    assert Lookup(tail2[1..], "{{CURRENT_COLUMN_LETTER}}") == Some(ColumnLetter(bv.currentColumn));
    assert Lookup(tail2, "{{CURRENT_COLUMN_LETTER}}") == Some(ColumnLetter(bv.currentColumn));
  }

  /** Every entry, in order, replaced in every literal occurrence. */
  function ApplyAll(formula: string, vars: seq<(string, string)>): string
    requires KeysAreTokens(vars)
    decreases |vars|
  {
    if vars == [] then formula else ApplyAll(ReplaceAll(formula, vars[0].0, vars[0].1), vars[1..])
  }

  /** Replacing brace-introduced keys in text without braces changes nothing. */
  lemma {:induction false} ApplyAllBraceFree(formula: string, vars: seq<(string, string)>)
    requires KeysAreTokens(vars) && '{' !in formula
    ensures ApplyAll(formula, vars) == formula
    decreases |vars|
  {
    if vars != [] {
      NoBraceNoOccurrence(formula, vars[0].0);
      ReplaceAllAbsent(formula, vars[0].0, vars[0].1);
      ApplyAllBraceFree(formula, vars[1..]);
    }
  }

  // ---------------------------------------------------------------------------
  // The three regular-expression passes
  // ---------------------------------------------------------------------------

  /** The end of the run of decimal digits that starts at index `i` of `t`. */
  function DigitRunFrom(t: string, i: nat): (j: nat)
    requires i <= |t|
    ensures i <= j <= |t|
    decreases |t| - i
  {
    if i < |t| && IsDigit(t[i]) then DigitRunFrom(t, i + 1) else i
  }

  /** The run `DigitRunFrom` measures is made of digits and is not followed by one. */
  lemma {:induction false} DigitRunFromFacts(t: string, i: nat)
    requires i <= |t|
    ensures AllDigits(t[i..DigitRunFrom(t, i)])
    ensures DigitRunFrom(t, i) < |t| ==> !IsDigit(t[DigitRunFrom(t, i)])
    decreases |t| - i
  {
    if i < |t| && IsDigit(t[i]) {
      DigitRunFromFacts(t, i + 1);
      assert t[i..DigitRunFrom(t, i)] == [t[i]] + t[i + 1..DigitRunFrom(t, i)];
    }
  }

  /** A run of digits from `i` to `j`, not followed by a digit, is the run `DigitRunFrom` finds. */
  lemma {:induction false} DigitRunFromOf(t: string, i: nat, j: nat)
    requires i <= j <= |t|
    requires forall k :: i <= k < j ==> IsDigit(t[k])
    requires j < |t| ==> !IsDigit(t[j])
    ensures DigitRunFrom(t, i) == j
    decreases j - i
  {
    if i < j {
      DigitRunFromOf(t, i + 1, j);
    }
  }

  /** The closing "}}" of a token stands at index `i` of `t`. */
  predicate ClosesAt(t: string, i: nat) {
    i + 2 <= |t| && t[i] == '}' && t[i + 1] == '}'
  }

  /**
   * The part of a token after its name, `([+-]\d+)?\}\}`, read from index `i` of `t`:
   * the offset it carries and the index just past it, or nothing when no token closes there.
   */
  function SuffixAt(t: string, i: nat): (r: Option<(int, nat)>)
    requires i <= |t|
    ensures r.Some? ==> i + 2 <= r.value.1 <= |t| && ClosesAt(t, r.value.1 - 2)
  {
    if ClosesAt(t, i) then Some((0, i + 2))
    else if i < |t| && (t[i] == '+' || t[i] == '-') then
      var j := DigitRunFrom(t, i + 1);
      if j > i + 1 && ClosesAt(t, j) then
        DigitRunFromFacts(t, i + 1);
        var v: int := DigitsValue(t[i + 1..j]);
        Some((if t[i] == '+' then v else 0 - v, j + 2))
      else None
    else None
  }

  /** `\{\{NAME([+-]\d+)?\}\}` anchored at the front of `s`: the offset and the match length. */
  function MatchToken(s: string, name: string): (r: Option<(int, nat)>)
    ensures r.Some? ==> |name| + 4 <= r.value.1 <= |s| && s[0] == '{' && s[1] == '{'
  {
    if StartsWith(s, "{{" + name) then
      assert s[0] == ("{{" + name)[0] && s[1] == ("{{" + name)[1];
      SuffixAt(s, |name| + 2)
    else None
  }

  const RowName := "CURRENT_ROW"
  const ColumnName := "CURRENT_COLUMN"
  const LetterName := "CURRENT_COLUMN_LETTER"
  const CountName := "ROW_COUNT"

  /** The three global replaces that run before the plain variables, in the order they run. */
  datatype Pass = RowColumnPass | LetterPass | RowCountPass

  function Max(a: int, b: int): int {
    if a < b then b else a
  }

  /** `{{CURRENT_(ROW|COLUMN)±K}}` at the front of `s`, replaced by the decimal text of max(1, base+K). */
  function MatchRowColumn(s: string, bv: BaseVariables): (r: Option<(nat, string)>)
    ensures r.Some? ==> 2 <= r.value.0 <= |s| && s[0] == '{' && s[1] == '{'
  {
    match MatchToken(s, RowName)
    case Some((offset, n)) => Some((n, IntToString(Max(1, bv.currentRow + offset))))
    case None =>
      match MatchToken(s, ColumnName)
      case Some((offset, n)) => Some((n, IntToString(Max(1, bv.currentColumn + offset))))
      case None => None
  }

  /** `{{CURRENT_COLUMN_LETTER±K}}` at the front of `s`, replaced by the letter name of max(1, column+K). */
  function MatchLetter(s: string, bv: BaseVariables): (r: Option<(nat, string)>)
    ensures r.Some? ==> 2 <= r.value.0 <= |s| && s[0] == '{' && s[1] == '{'
  {
    match MatchToken(s, LetterName)
    case Some((offset, n)) => Some((n, ColumnLetter(Max(1, bv.currentColumn + offset))))
    case None => None
  }

  /** `{{ROW_COUNT±K}}` at the front of `s`, replaced by the decimal text of count+K, not clamped. */
  function MatchRowCount(s: string, bv: BaseVariables): (r: Option<(nat, string)>)
    ensures r.Some? ==> 2 <= r.value.0 <= |s| && s[0] == '{' && s[1] == '{'
  {
    match MatchToken(s, CountName)
    case Some((offset, n)) => Some((n, IntToString(bv.rowCount + offset)))
    case None => None
  }

  /** The match of a pass's pattern at the front of `s`, with its replacement text. */
  function MatchAt(s: string, pass: Pass, bv: BaseVariables): (r: Option<(nat, string)>)
    ensures r.Some? ==> 2 <= r.value.0 <= |s| && s[0] == '{' && s[1] == '{'
  {
    match pass
    case RowColumnPass => MatchRowColumn(s, bv)
    case LetterPass => MatchLetter(s, bv)
    case RowCountPass => MatchRowCount(s, bv)
  }

  /** A global `replace` of one pass: leftmost matches, left to right, without overlap. */
  function Scan(s: string, pass: Pass, bv: BaseVariables): string
    decreases |s|
  {
    if s == [] then []
    else if s[0] != '{' then [s[0]] + Scan(s[1..], pass, bv)
    else
      match MatchAt(s, pass, bv)
      case Some((n, rep)) => rep + Scan(s[n..], pass, bv)
      case None => [s[0]] + Scan(s[1..], pass, bv)
  }

  /** `performVariableSubstitutionsOnFormula`, as a function of the formula and the base variables. */
  function SubstituteFormula(formula: string, bv: BaseVariables): string {
    var p1 := Scan(formula, RowColumnPass, bv);
    var p2 := Scan(p1, LetterPass, bv);
    var p3 := Scan(p2, RowCountPass, bv);
    ApplyAll(p3, GetVariables(bv))
  }

  /** `performVariableSubstitutionsOnFormula`: three passes, then each plain variable in map order. */
  method PerformVariableSubstitutionsOnFormula(formula: string, bv: BaseVariables) returns (result: string)
    ensures result == SubstituteFormula(formula, bv)
  {
    result := Scan(formula, RowColumnPass, bv);
    result := Scan(result, LetterPass, bv);
    result := Scan(result, RowCountPass, bv);
    var variables := GetVariables(bv);
    ghost var start := result;
    var i := 0;
    while i < |variables|
      invariant 0 <= i <= |variables|
      invariant ApplyAll(result, variables[i..]) == ApplyAll(start, variables)
    {
      var (key, value) := variables[i];
      assert variables[i..][1..] == variables[i + 1..];
      result := ReplaceAll(result, key, value);
      i := i + 1;
    }
  }

  // ---------------------------------------------------------------------------
  // What the passes do to text and to one token
  // ---------------------------------------------------------------------------

  /** A character other than '{' is copied and the pass goes on with the next one. */
  lemma ScanPlain(s: string, pass: Pass, bv: BaseVariables)
    requires s != [] && s[0] != '{'
    ensures Scan(s, pass, bv) == [s[0]] + Scan(s[1..], pass, bv)
  {
  }

  /** A brace where the pass matches nothing is copied, and the pass resumes after it. */
  lemma ScanUnmatched(s: string, pass: Pass, bv: BaseVariables)
    requires s != [] && MatchAt(s, pass, bv).None?
    ensures Scan(s, pass, bv) == [s[0]] + Scan(s[1..], pass, bv)
  {
  }

  /** A pass copies text without braces and carries on after it. */
  lemma {:induction false} ScanBraceFree(a: string, b: string, pass: Pass, bv: BaseVariables)
    requires '{' !in a
    ensures Scan(a + b, pass, bv) == a + Scan(b, pass, bv)
    decreases |a|
  {
    if a != [] {
      var s := a + b;
      assert s[0] == a[0];
      ScanPlain(s, pass, bv);
      assert s[1..] == a[1..] + b;
      assert '{' !in a[1..];
      ScanBraceFree(a[1..], b, pass, bv);
      assert a == [a[0]] + a[1..];
    } else {
      assert a + b == b;
    }
  }

  /** A match at the front is replaced and the pass resumes after it. */
  lemma ScanMatch(s: string, b: string, pass: Pass, bv: BaseVariables, rep: string)
    requires MatchAt(s + b, pass, bv) == Some((|s|, rep))
    ensures Scan(s + b, pass, bv) == rep + Scan(b, pass, bv)
  {
    assert (s + b)[|s|..] == b;
  }

  /** A double-braced text that the pass does not recognise is copied as a whole. */
  lemma ScanSkip(x: string, b: string, pass: Pass, bv: BaseVariables)
    requires x != [] && '{' !in x
    requires MatchAt("{{" + x + b, pass, bv).None?
    ensures Scan("{{" + x + b, pass, bv) == "{{" + x + Scan(b, pass, bv)
  {
    var s := "{{" + x + b;
    var t := s[1..];
    assert s[0] == '{' && t == "{" + x + b && t[1] == x[0] && t[1..] == x + b;
    assert x[0] in x;
    ScanUnmatched(s, pass, bv);
    ScanUnmatched(t, pass, bv);
    ScanBraceFree(x, b, pass, bv);
    TwoBraces(x, Scan(b, pass, bv));
  }

  lemma TwoBraces(x: string, r: string)
    ensures ['{'] + (['{'] + (x + r)) == "{{" + x + r
  {
  }

  /** A pass leaves text without braces unchanged. */
  lemma ScanIdentity(a: string, pass: Pass, bv: BaseVariables)
    requires '{' !in a
    ensures Scan(a, pass, bv) == a
  {
    ScanBraceFree(a, [], pass, bv);
    assert a + [] == a;
  }

  /** The canonical text of an offset: nothing for 0, else a sign and the decimal digits. */
  function OffsetText(k: int): string {
    if k == 0 then "" else if k > 0 then "+" + NatToString(k) else "-" + NatToString(-k)
  }

  /** The token `{{NAME±K}}` written with the canonical offset. */
  function Token(name: string, k: int): string {
    "{{" + name + OffsetText(k) + "}}"
  }

  /** The tokens of the documented examples, written out. */
  lemma TokenExamples()
    ensures Token(RowName, 1) == "{{CURRENT_ROW+1}}"
    ensures Token(LetterName, 1) == "{{CURRENT_COLUMN_LETTER+1}}"
    ensures Token(RowName, -2) == "{{CURRENT_ROW-2}}"
    ensures Token(CountName, 0) == "{{ROW_COUNT}}"
  {
    RowTokenExample();
    LetterTokenExample();
    NegativeTokenExample();
  }

  lemma RowTokenExample()
    ensures Token(RowName, 1) == "{{CURRENT_ROW+1}}"
  {
    assert NatToString(1) == "1";
  }

  lemma LetterTokenExample()
    ensures Token(LetterName, 1) == "{{CURRENT_COLUMN_LETTER+1}}"
  {
    assert OffsetText(1) == "+1" by { assert NatToString(1) == "1"; }
    assert "{{" + LetterName == "{{CURRENT_COLUMN_LETTER";
    assert "{{CURRENT_COLUMN_LETTER" + "+1" == "{{CURRENT_COLUMN_LETTER+1";
  }

  lemma NegativeTokenExample()
    ensures Token(RowName, -2) == "{{CURRENT_ROW-2}}"
  {
    assert OffsetText(-2) == "-2" by { assert NatToString(2) == "2"; }
    assert "{{" + RowName == "{{CURRENT_ROW";
    assert "{{CURRENT_ROW" + "-2" == "{{CURRENT_ROW-2";
  }

  /** Where the pieces of a token stand in the token followed by more text. */
  lemma TokenPieces(name: string, k: int, b: string)
    ensures var s := Token(name, k) + b; var o := |name| + 2; var ot := OffsetText(k);
      && |s| == o + |ot| + 2 + |b|
      && s[..o] == "{{" + name
      && (forall j :: 0 <= j < |ot| ==> s[o + j] == ot[j])
      && s[o..o + |ot|] == ot
      && ClosesAt(s, o + |ot|)
  {
    var ot := OffsetText(k);
    var head := "{{" + name;
    var o := |head|;
    var s := head + ot + ("}}" + b);
    assert Token(name, k) + b == s;
    assert s[..o] == head;
    assert s[o..o + |ot|] == ot;
    forall j | 0 <= j < |ot| ensures s[o + j] == ot[j] {
      assert s[o..o + |ot|][j] == ot[j];
    }
    assert s[o + |ot|..o + |ot| + 2] == "}}";
  }

  /** A canonical offset text at index `o`, closed by "}}", is read back as its offset. */
  lemma SuffixOfOffset(s: string, o: nat, k: int)
    requires o + |OffsetText(k)| + 2 <= |s|
    requires forall j :: 0 <= j < |OffsetText(k)| ==> s[o + j] == OffsetText(k)[j]
    requires s[o..o + |OffsetText(k)|] == OffsetText(k)
    requires ClosesAt(s, o + |OffsetText(k)|)
    ensures SuffixAt(s, o) == Some((k, o + |OffsetText(k)| + 2))
  {
    if k != 0 {
      var digits := NatToString(if k > 0 then k else -k);
      var ot := OffsetText(k);
      assert ot == [ot[0]] + digits;
      assert s[o] == ot[0];
      forall j | o + 1 <= j < o + 1 + |digits| ensures IsDigit(s[j]) {
        assert s[j] == ot[j - o] == digits[j - o - 1];
      }
      DigitRunFromOf(s, o + 1, o + 1 + |digits|);
      forall j | 0 <= j < |digits| ensures s[o + 1..o + 1 + |digits|][j] == digits[j] {
        assert s[o + 1 + j] == ot[1 + j];
      }
      assert s[o + 1..o + 1 + |digits|] == digits;
    }
  }

  /** A canonical token is matched by its own name, offset and length. */
  lemma MatchTokenOfToken(name: string, k: int, b: string)
    ensures MatchToken(Token(name, k) + b, name) == Some((k, |Token(name, k)|))
  {
    TokenPieces(name, k, b);
    SuffixOfOffset(Token(name, k) + b, |name| + 2, k);
  }

  /** A name that differs from the token's name at index `j` does not match the token. */
  lemma MatchTokenOtherName(name: string, k: int, b: string, other: string, j: nat)
    requires j < |name| && j < |other| && name[j] != other[j]
    ensures MatchToken(Token(name, k) + b, other).None?
  {
    var s := Token(name, k) + b;
    assert s[j + 2] == name[j];
    assert ("{{" + other)[j + 2] == other[j];
  }

  /** The facts about the four token names that the lemmas below use. */
  lemma NameFacts()
    ensures '{' !in RowName && '{' !in ColumnName && '{' !in LetterName && '{' !in CountName
    ensures RowName[8] == 'R' && ColumnName[8] == 'C' && LetterName[8] == 'C'
    ensures RowName[0] == 'C' && ColumnName[0] == 'C' && LetterName[0] == 'C' && CountName[0] == 'R'
    ensures |ColumnName| == 14 && LetterName[..14] == ColumnName && LetterName[14] == '_'
  {
  }

  /** `{{CURRENT_COLUMN` does not open a `{{CURRENT_COLUMN_LETTER±K}}` token: the next character is `_`. */
  lemma ColumnNameMissesLetterToken(k: int, b: string)
    ensures MatchToken(Token(LetterName, k) + b, ColumnName).None?
  {
    NameFacts();
    var s := Token(LetterName, k) + b;
    assert s[16] == LetterName[14] == '_';
  }

  lemma OffsetTextBraceFree(k: int)
    ensures '{' !in OffsetText(k)
  {
    if k != 0 {
      var digits := NatToString(if k > 0 then k else -k);
      assert forall i :: 0 <= i < |digits| ==> IsDigit(digits[i]);
    }
  }

  /** A token is two braces followed by brace-free text. */
  lemma TokenShape(name: string, k: int, b: string)
    requires '{' !in name
    ensures Token(name, k) + b == "{{" + (name + OffsetText(k) + "}}") + b
    ensures '{' !in name + OffsetText(k) + "}}"
  {
    OffsetTextBraceFree(k);
  }

  lemma IntToStringBraceFree(n: int)
    ensures '{' !in IntToString(n)
  {
    var d := NatToString(if n < 0 then -n else n);
    assert forall i :: 0 <= i < |d| ==> IsDigit(d[i]);
  }

  lemma ColumnLetterBraceFree(n: int)
    ensures '{' !in ColumnLetter(n)
  {
    var r := ColumnLetter(n);
    assert forall i :: 0 <= i < |r| ==> IsUpper(r[i]);
  }

  /** The whole substitution leaves text without braces unchanged. */
  lemma SubstituteBraceFree(a: string, bv: BaseVariables)
    requires '{' !in a
    ensures SubstituteFormula(a, bv) == a
  {
    ScanIdentity(a, RowColumnPass, bv);
    ScanIdentity(a, LetterPass, bv);
    ScanIdentity(a, RowCountPass, bv);
    ApplyAllBraceFree(a, GetVariables(bv));
  }

  /** A pass replaces a token it matches between brace-free texts. */
  lemma ScanReplacesToken(a: string, t: string, b: string, pass: Pass, bv: BaseVariables, rep: string)
    requires '{' !in a && '{' !in b
    requires MatchAt(t + b, pass, bv) == Some((|t|, rep))
    ensures Scan(a + t + b, pass, bv) == a + rep + b
  {
    assert a + t + b == a + (t + b);
    ScanBraceFree(a, t + b, pass, bv);
    ScanMatch(t, b, pass, bv, rep);
    ScanIdentity(b, pass, bv);
  }

  /** A pass copies a named token it does not match between brace-free texts. */
  lemma ScanKeepsToken(a: string, name: string, k: int, b: string, pass: Pass, bv: BaseVariables)
    requires '{' !in a && '{' !in b && '{' !in name
    requires MatchAt(Token(name, k) + b, pass, bv).None?
    ensures Scan(a + Token(name, k) + b, pass, bv) == a + Token(name, k) + b
  {
    var t := Token(name, k);
    TokenShape(name, k, b);
    assert a + t + b == a + (t + b);
    ScanBraceFree(a, t + b, pass, bv);
    ScanSkip(name + OffsetText(k) + "}}", b, pass, bv);
    ScanIdentity(b, pass, bv);
  }

  /** When the first pass leaves text without braces, the rest of the substitution keeps it. */
  lemma SubstituteAfterFirstPass(formula: string, p1: string, bv: BaseVariables)
    requires Scan(formula, RowColumnPass, bv) == p1 && '{' !in p1
    ensures SubstituteFormula(formula, bv) == p1
  {
    ScanIdentity(p1, LetterPass, bv);
    ScanIdentity(p1, RowCountPass, bv);
    ApplyAllBraceFree(p1, GetVariables(bv));
  }

  /** `{{CURRENT_ROW±K}}` between brace-free texts becomes the decimal text of max(1, row+K). */
  lemma SubstituteRowToken(a: string, k: int, b: string, bv: BaseVariables)
    requires '{' !in a && '{' !in b
    ensures SubstituteFormula(a + Token(RowName, k) + b, bv)
         == a + IntToString(Max(1, bv.currentRow + k)) + b
  {
    var rep := IntToString(Max(1, bv.currentRow + k));
    MatchTokenOfToken(RowName, k, b);
    ScanReplacesToken(a, Token(RowName, k), b, RowColumnPass, bv, rep);
    IntToStringBraceFree(Max(1, bv.currentRow + k));
    SubstituteAfterFirstPass(a + Token(RowName, k) + b, a + rep + b, bv);
  }

  /** `{{CURRENT_COLUMN±K}}` between brace-free texts becomes the decimal text of max(1, column+K). */
  lemma SubstituteColumnToken(a: string, k: int, b: string, bv: BaseVariables)
    requires '{' !in a && '{' !in b
    ensures SubstituteFormula(a + Token(ColumnName, k) + b, bv)
         == a + IntToString(Max(1, bv.currentColumn + k)) + b
  {
    var rep := IntToString(Max(1, bv.currentColumn + k));
    NameFacts();
    MatchTokenOtherName(ColumnName, k, b, RowName, 8);
    MatchTokenOfToken(ColumnName, k, b);
    ScanReplacesToken(a, Token(ColumnName, k), b, RowColumnPass, bv, rep);
    IntToStringBraceFree(Max(1, bv.currentColumn + k));
    SubstituteAfterFirstPass(a + Token(ColumnName, k) + b, a + rep + b, bv);
  }

  /** The row and column pass does not match a `{{CURRENT_COLUMN_LETTER±K}}` token. */
  lemma RowColumnMissesLetterToken(k: int, b: string, bv: BaseVariables)
    ensures MatchAt(Token(LetterName, k) + b, RowColumnPass, bv).None?
  {
    NameFacts();
    MatchTokenOtherName(LetterName, k, b, RowName, 8);
    ColumnNameMissesLetterToken(k, b);
  }

  /** `{{CURRENT_COLUMN_LETTER±K}}` between brace-free texts becomes the letter name of max(1, column+K). */
  lemma SubstituteLetterToken(a: string, k: int, b: string, bv: BaseVariables)
    requires '{' !in a && '{' !in b
    ensures SubstituteFormula(a + Token(LetterName, k) + b, bv)
         == a + ColumnLetter(Max(1, bv.currentColumn + k)) + b
  {
    var t := Token(LetterName, k);
    var rep := ColumnLetter(Max(1, bv.currentColumn + k));
    NameFacts();
    RowColumnMissesLetterToken(k, b, bv);
    ScanKeepsToken(a, LetterName, k, b, RowColumnPass, bv);
    MatchTokenOfToken(LetterName, k, b);
    ScanReplacesToken(a, t, b, LetterPass, bv, rep);
    ColumnLetterBraceFree(Max(1, bv.currentColumn + k));
    SubstituteBraceFreeTail(a + rep + b, bv);
  }

  /** The last pass and the plain variables leave brace-free text unchanged. */
  lemma SubstituteBraceFreeTail(p: string, bv: BaseVariables)
    requires '{' !in p
    ensures ApplyAll(Scan(p, RowCountPass, bv), GetVariables(bv)) == p
    ensures Scan(p, LetterPass, bv) == p
  {
    ScanIdentity(p, LetterPass, bv);
    ScanIdentity(p, RowCountPass, bv);
    ApplyAllBraceFree(p, GetVariables(bv));
  }

  /** `{{ROW_COUNT±K}}` between brace-free texts becomes the decimal text of count+K, without clamping. */
  lemma SubstituteRowCountToken(a: string, k: int, b: string, bv: BaseVariables)
    requires '{' !in a && '{' !in b
    ensures SubstituteFormula(a + Token(CountName, k) + b, bv)
         == a + IntToString(bv.rowCount + k) + b
  {
    var t := Token(CountName, k);
    var rep := IntToString(bv.rowCount + k);
    NameFacts();
    MatchTokenOtherName(CountName, k, b, RowName, 0);
    MatchTokenOtherName(CountName, k, b, ColumnName, 0);
    MatchTokenOtherName(CountName, k, b, LetterName, 0);
    ScanKeepsToken(a, CountName, k, b, RowColumnPass, bv);
    ScanKeepsToken(a, CountName, k, b, LetterPass, bv);
    MatchTokenOfToken(CountName, k, b);
    ScanReplacesToken(a, t, b, RowCountPass, bv, rep);
    IntToStringBraceFree(bv.rowCount + k);
    ApplyAllBraceFree(a + rep + b, GetVariables(bv));
  }

  /** The first pass over the documented example replaces the row token and copies the letter token. */
  lemma ExampleFirstPass(bv: BaseVariables)
    requires bv.currentRow == 5
    ensures Scan("Row: " + Token(RowName, 1) + ", Col: " + Token(LetterName, 1), RowColumnPass, bv)
         == "Row: " + "6" + ", Col: " + Token(LetterName, 1)
  {
    var row := Token(RowName, 1);
    var letter := Token(LetterName, 1);
    var mid := ", Col: ";
    NameFacts();
    RowColumnMissesLetterToken(1, "", bv);
    ScanKeepsToken(mid, LetterName, 1, "", RowColumnPass, bv);
    assert mid + letter + "" == mid + letter;
    MatchTokenOfToken(RowName, 1, mid + letter);
    assert IntToString(Max(1, 5 + 1)) == "6";
    calc {
      Scan("Row: " + row + mid + letter, RowColumnPass, bv);
      { assert "Row: " + row + mid + letter == "Row: " + (row + (mid + letter)); }
      Scan("Row: " + (row + (mid + letter)), RowColumnPass, bv);
      { ScanBraceFree("Row: ", row + (mid + letter), RowColumnPass, bv); }
      "Row: " + Scan(row + (mid + letter), RowColumnPass, bv);
      { ScanMatch(row, mid + letter, RowColumnPass, bv, "6"); }
      "Row: " + ("6" + Scan(mid + letter, RowColumnPass, bv));
      "Row: " + ("6" + (mid + letter));
      "Row: " + "6" + mid + letter;
    }
  }

  /** The second pass over the documented example replaces the letter token by the name of column 4. */
  lemma ExampleSecondPass(bv: BaseVariables)
    requires bv.currentColumn == 3
    ensures Scan("Row: " + "6" + ", Col: " + Token(LetterName, 1), LetterPass, bv) == "Row: " + "6" + ", Col: " + "D"
  {
    var letter := Token(LetterName, 1);
    MatchTokenOfToken(LetterName, 1, "");
    ColumnLetterUnique(4, "D");
    assert letter + "" == letter;
    assert "Row: " + "6" + ", Col: " + letter + "" == "Row: " + "6" + ", Col: " + letter;
    ScanReplacesToken("Row: " + "6" + ", Col: ", letter, "", LetterPass, bv, "D");
    assert "Row: " + "6" + ", Col: " + "D" + "" == "Row: " + "6" + ", Col: " + "D";
  }

  /**
   * The documented example: with column 3 and row 5,
   * "Row: {{CURRENT_ROW+1}}, Col: {{CURRENT_COLUMN_LETTER+1}}" becomes "Row: 6, Col: D".
   */
  lemma RowAndLetterExample()
    ensures SubstituteFormula("Row: " + Token(RowName, 1) + ", Col: " + Token(LetterName, 1), BaseVariables(3, 5, 10))
         == "Row: " + "6" + ", Col: " + "D"
  {
    var bv := BaseVariables(3, 5, 10);
    ExampleFirstPass(bv);
    ExampleSecondPass(bv);
    SubstituteBraceFreeTail("Row: " + "6" + ", Col: " + "D", bv);
  }

  // ---------------------------------------------------------------------------
  // The `!&&format&&formula` cell prefix
  // ---------------------------------------------------------------------------

  /** What `extractFormattingFromFormula` returns: the formula, and the formatting when there is one. */
  datatype FormattedFormula = FormattedFormula(formula: string, formatting: Option<string>)

  /** No line terminator from index `from` on: the characters `.` matches. */
  predicate NoLineTerminatorFrom(s: string, from: nat) {
    forall i :: from <= i < |s| ==> !IsLineTerminator(s[i])
  }

  /** "&&" stands at index `m` with at least one character after it. */
  predicate IsSplit(s: string, m: nat) {
    m + 2 < |s| && s[m] == '&' && s[m + 1] == '&'
  }

  /**
   * `^!&&(.+?)&&(.+)$` can match with the first group ending just before index `i`:
   * the formatting `s[3..i]` and the formula `s[i + 2..]` are both non-empty.
   */
  predicate SplitsAt(s: string, i: nat) {
    StartsWith(s, "!&&") && NoLineTerminatorFrom(s, 3) && 4 <= i && IsSplit(s, i)
  }

  /** The first "&&" at or after index `j` that leaves something after it. */
  function FindSplit(s: string, j: nat): (r: Option<nat>)
    ensures r.Some? ==> j <= r.value && IsSplit(s, r.value)
    ensures r.Some? ==> forall m :: j <= m < r.value ==> !IsSplit(s, m)
    ensures r.None? ==> forall m :: j <= m ==> !IsSplit(s, m)
    decreases |s| - j
  {
    if j + 2 >= |s| then None
    else if IsSplit(s, j) then Some(j)
    else FindSplit(s, j + 1)
  }

  /**
   * `extractFormattingFromFormula`: on a match, the formatting is the shortest
   * non-empty text between "!&&" and a following "&&" and the formula is the rest;
   * otherwise the input comes back as the formula, with no formatting.
   */
  function ExtractFormatting(s: string): (r: FormattedFormula)
    ensures r.formatting.Some? <==> exists i :: SplitsAt(s, i)
    ensures r.formatting.Some? ==>
      exists i: nat :: SplitsAt(s, i) && r.formatting.value == s[3..i] && r.formula == s[i + 2..]
        && forall j :: 4 <= j < i ==> !SplitsAt(s, j)
    ensures r.formatting.None? ==> r.formula == s
  {
    if StartsWith(s, "!&&") && NoLineTerminatorFrom(s, 3) then
      match FindSplit(s, 4)
      case Some(i) =>
        assert SplitsAt(s, i);
        FormattedFormula(s[i + 2..], Some(s[3..i]))
      case None =>
        assert forall i :: !SplitsAt(s, i) by {
          forall i | 4 <= i ensures !IsSplit(s, i) { }
        }
        FormattedFormula(s, None)
    else
      FormattedFormula(s, None)
  }

  /** On a match, "!&&" + formatting + "&&" + formula is the input, and both parts are non-empty. */
  lemma ExtractReconstructs(s: string)
    requires ExtractFormatting(s).formatting.Some?
    ensures var r := ExtractFormatting(s);
      && r.formatting.value != [] && r.formula != []
      && "!&&" + r.formatting.value + "&&" + r.formula == s
  {
    var r := ExtractFormatting(s);
    var i: nat :| SplitsAt(s, i) && r.formatting.value == s[3..i] && r.formula == s[i + 2..];
    assert s[..3] == "!&&";
    assert s[i..i + 2] == "&&";
    assert s == s[..3] + s[3..i] + s[i..i + 2] + s[i + 2..];
  }

  /** Formatting without '&' and a formula, both non-empty and on one line, are read back from the prefixed cell. */
  lemma ExtractRoundTrip(f: string, formula: string)
    requires f != [] && formula != [] && '&' !in f
    requires forall i :: 0 <= i < |f| ==> !IsLineTerminator(f[i])
    requires forall i :: 0 <= i < |formula| ==> !IsLineTerminator(formula[i])
    ensures ExtractFormatting("!&&" + f + "&&" + formula) == FormattedFormula(formula, Some(f))
  {
    var s := "!&&" + f + "&&" + formula;
    var i := 3 + |f|;
    assert s[..3] == "!&&";
    assert forall k :: 3 <= k < i ==> s[k] == f[k - 3];
    assert s[i] == '&' && s[i + 1] == '&';
    assert forall k :: i + 2 <= k < |s| ==> s[k] == formula[k - i - 2];
    assert NoLineTerminatorFrom(s, 3);
    assert SplitsAt(s, i);
    forall j | 4 <= j < i ensures !SplitsAt(s, j) {
      assert s[j] == f[j - 3];
    }
    var r := ExtractFormatting(s);
    var i': nat :| SplitsAt(s, i') && r.formatting.value == s[3..i'] && r.formula == s[i' + 2..]
      && forall j :: 4 <= j < i' ==> !SplitsAt(s, j);
    assert i' == i;
    assert s[3..i] == f;
    assert s[i + 2..] == formula;
  }

  /** A cell with no "!&&" prefix, or with a line break after it, has no formatting. */
  lemma ExtractNoMatch(s: string)
    requires !StartsWith(s, "!&&") || !NoLineTerminatorFrom(s, 3)
    ensures ExtractFormatting(s) == FormattedFormula(s, None)
  {
  }

  // ---------------------------------------------------------------------------
  // Whole-matrix passes
  // ---------------------------------------------------------------------------

  /** The formatting a cell contributes to `getFormulaFormatting`: "" unless it carries a prefix. */
  function CellFormatting(cell: string): (r: string)
    ensures r != [] <==> ExtractFormatting(cell).formatting.Some?
    ensures r != [] ==> cell == "!&&" + r + "&&" + ExtractFormatting(cell).formula
  {
    if StartsWith(cell, "!&&") then
      var e := ExtractFormatting(cell);
      if e.formatting.Some? then
        ExtractReconstructs(cell);
        e.formatting.value
      else ""
    else ""
  }

  /** A cell without its formatting prefix. */
  function StrippedCell(cell: string): string {
    if StartsWith(cell, "!&&") then ExtractFormatting(cell).formula else cell
  }

  /** The stripped cell is exactly the formula `extractFormattingFromFormula` reports, and the cell is rebuilt from it. */
  lemma StrippedCellFormula(cell: string)
    ensures StrippedCell(cell) == ExtractFormatting(cell).formula
    ensures StrippedCell(cell) == cell || cell == "!&&" + CellFormatting(cell) + "&&" + StrippedCell(cell)
  {
    if ExtractFormatting(cell).formatting.Some? {
      ExtractReconstructs(cell);
    }
  }

  /**
   * The value `performDataSubstitutions` gives the cell at (`rowIndex`, `colIndex`) of a
   * matrix of `rowCount` rows: the stripped cell, substituted with column and row
   * numbers counted from 1 when it is a formula.
   */
  function SubstituteCell(cell: string, rowIndex: nat, colIndex: nat, rowCount: nat): string {
    var data := StrippedCell(cell);
    if StartsWith(data, "=") then SubstituteFormula(data, BaseVariables(colIndex + 1, rowIndex + 1, rowCount))
    else data
  }

  /** A cell that is not a formula, or holds no brace, is only stripped. */
  lemma SubstituteCellPlain(cell: string, rowIndex: nat, colIndex: nat, rowCount: nat)
    ensures !StartsWith(StrippedCell(cell), "=") ==> SubstituteCell(cell, rowIndex, colIndex, rowCount) == StrippedCell(cell)
    ensures '{' !in StrippedCell(cell) ==> SubstituteCell(cell, rowIndex, colIndex, rowCount) == StrippedCell(cell)
  {
    SubstituteBraceFreeWhen(StrippedCell(cell), BaseVariables(colIndex + 1, rowIndex + 1, rowCount));
  }

  lemma SubstituteBraceFreeWhen(a: string, bv: BaseVariables)
    ensures '{' !in a ==> SubstituteFormula(a, bv) == a
  {
    if '{' !in a {
      SubstituteBraceFree(a, bv);
    }
  }

  /** A matrix whose rows all have the lengths of the rows of another. */
  predicate SameShape<T, U>(a: seq<seq<T>>, b: seq<seq<U>>) {
    |a| == |b| && forall r :: 0 <= r < |a| ==> |a[r]| == |b[r]|
  }

  /** `out` is `row` with every cell replaced by its formatting. */
  predicate FormattingRow(out: seq<string>, row: seq<string>) {
    |out| == |row| && forall c :: 0 <= c < |row| ==> out[c] == CellFormatting(row[c])
  }

  /** `out` is row `rowIndex` of a `rowCount`-row matrix with every cell substituted. */
  predicate SubstitutedRow(out: seq<string>, row: seq<string>, rowIndex: nat, rowCount: nat) {
    |out| == |row| && forall c :: 0 <= c < |row| ==> out[c] == SubstituteCell(row[c], rowIndex, c, rowCount)
  }

  /** `getFormulaFormatting`: the formatting matrix, "" for every cell without a prefix. */
  method GetFormulaFormatting(inputData: seq<seq<string>>) returns (result: seq<seq<string>>)
    ensures SameShape(result, inputData)
    ensures forall r, c :: 0 <= r < |inputData| && 0 <= c < |inputData[r]| ==>
      result[r][c] == CellFormatting(inputData[r][c])
  {
    result := [];
    var rowIndex := 0;
    while rowIndex < |inputData|
      invariant 0 <= rowIndex <= |inputData|
      invariant |result| == rowIndex
      invariant forall r :: 0 <= r < rowIndex ==> FormattingRow(result[r], inputData[r])
    {
      var row := inputData[rowIndex];
      var resultRow: seq<string> := [];
      var colIndex := 0;
      while colIndex < |row|
        invariant 0 <= colIndex <= |row|
        invariant FormattingRow(resultRow, row[..colIndex])
      {
        var cell := row[colIndex];
        var cellData := "";
        if StartsWith(cell, "!&&") {
          var cellFormatResult := ExtractFormatting(cell);
          cellData := cellFormatResult.formatting.GetOr("");
        }
        assert row[..colIndex + 1] == row[..colIndex] + [cell];
        resultRow := resultRow + [cellData];
        colIndex := colIndex + 1;
      }
      assert row[..colIndex] == row;
      result := result + [resultRow];
      rowIndex := rowIndex + 1;
    }
  }

  /** `performDataSubstitutions`: every cell stripped and, when a formula, substituted for its own position. */
  method PerformDataSubstitutions(inputData: seq<seq<string>>) returns (result: seq<seq<string>>)
    ensures SameShape(result, inputData)
    ensures forall r, c :: 0 <= r < |inputData| && 0 <= c < |inputData[r]| ==>
      result[r][c] == SubstituteCell(inputData[r][c], r, c, |inputData|)
  {
    result := [];
    var rowIndex := 0;
    while rowIndex < |inputData|
      invariant 0 <= rowIndex <= |inputData|
      invariant |result| == rowIndex
      invariant forall r :: 0 <= r < rowIndex ==> SubstitutedRow(result[r], inputData[r], r, |inputData|)
    {
      var resultRow := SubstituteRow(inputData[rowIndex], rowIndex, |inputData|);
      result := result + [resultRow];
      rowIndex := rowIndex + 1;
    }
  }

  /** The inner loop of `performDataSubstitutions`: one row, each cell substituted for its column. */
  method SubstituteRow(row: seq<string>, rowIndex: nat, rowCount: nat) returns (resultRow: seq<string>)
    ensures SubstitutedRow(resultRow, row, rowIndex, rowCount)
  {
    resultRow := [];
    var colIndex := 0;
    while colIndex < |row|
      invariant 0 <= colIndex <= |row|
      invariant SubstitutedRow(resultRow, row[..colIndex], rowIndex, rowCount)
    {
      var cellData := SubstituteCellData(row[colIndex], rowIndex, colIndex, rowCount);
      assert row[..colIndex + 1] == row[..colIndex] + [row[colIndex]];
      resultRow := resultRow + [cellData];
      colIndex := colIndex + 1;
    }
    assert row[..colIndex] == row;
  }

  /** The callback of that loop for one cell: the formatting prefix dropped, then a formula substituted. */
  method SubstituteCellData(cell: string, rowIndex: nat, colIndex: nat, rowCount: nat) returns (cellData: string)
    ensures cellData == SubstituteCell(cell, rowIndex, colIndex, rowCount)
  {
    cellData := cell;
    if StartsWith(cellData, "!&&") {
      var cellFormatResult := ExtractFormatting(cellData);
      cellData := cellFormatResult.formula;
    }
    if StartsWith(cellData, "=") {
      var baseVariables := BaseVariables(colIndex + 1, rowIndex + 1, rowCount);
      cellData := PerformVariableSubstitutionsOnFormula(cellData, baseVariables);
    }
  }

  /** The cells of the documented matrix example, each substituted for its own position in two rows. */
  lemma MatrixExample()
    ensures SubstituteCell("=" + Token(RowName, 0), 0, 0, 2) == "=" + "1"
    ensures SubstituteCell("=" + Token(RowName, 1), 0, 1, 2) == "=" + "2"
    ensures SubstituteCell("=" + Token(LetterName, 0), 0, 2, 2) == "=" + "C"
    ensures SubstituteCell("=" + Token(LetterName, 1), 0, 3, 2) == "=" + "E"
    ensures SubstituteCell("content", 1, 0, 2) == "content"
    ensures SubstituteCell("=" + Token(CountName, 0), 1, 1, 2) == "=" + "2"
  {
    MatrixRowCell(0, 0, 1);
    MatrixRowCell(1, 1, 2);
    ColumnLetterUnique(3, "C");
    ColumnLetterUnique(5, "E");
    MatrixLetterCell(0, 2, 3, "C");
    MatrixLetterCell(1, 3, 5, "E");
    MatrixCountCell();
    MatrixTextCell();
  }

  lemma MatrixTextCell()
    ensures SubstituteCell("content", 1, 0, 2) == "content"
  {
    assert "content"[..1] == "c";
    assert "content"[..3] == "con";
  }

  /** A formula cell without a formatting prefix is substituted for its position as it stands. */
  lemma SubstituteFormulaCell(cell: string, rowIndex: nat, colIndex: nat, rowCount: nat)
    requires StartsWith(cell, "=")
    ensures SubstituteCell(cell, rowIndex, colIndex, rowCount)
         == SubstituteFormula(cell, BaseVariables(colIndex + 1, rowIndex + 1, rowCount))
  {
    assert cell[0] == "="[0];
    assert !StartsWith(cell, "!&&") by {
      if |cell| >= 3 {
        assert cell[..3][0] == '=';
      }
    }
  }

  /** A token always opens with "{{". */
  lemma TokenOpens(name: string, k: int)
    ensures |Token(name, k)| > 2 && Token(name, k)[0] == '{'
  {
  }

  /** A formula cell `"=" + t` whose substitution gives `"=" + rep` is that in the matrix as well. */
  lemma FormulaCell(t: string, rowIndex: nat, colIndex: nat, rowCount: nat, rep: string)
    requires |t| > 2 && t[0] == '{'
    requires SubstituteFormula("=" + t + "", BaseVariables(colIndex + 1, rowIndex + 1, rowCount)) == "=" + rep + ""
    ensures SubstituteCell("=" + t, rowIndex, colIndex, rowCount) == "=" + rep
  {
    var cell := "=" + t;
    assert cell + "" == cell && "=" + rep + "" == "=" + rep;
    assert cell[..1] == "=";
    SubstituteFormulaCell(cell, rowIndex, colIndex, rowCount);
  }

  lemma MatrixRowCell(k: int, colIndex: nat, value: nat)
    requires 0 <= k && value == k + 1
    ensures SubstituteCell("=" + Token(RowName, k), 0, colIndex, 2) == "=" + IntToString(value)
  {
    var bv := BaseVariables(colIndex + 1, 1, 2);
    SubstituteRowToken("=", k, "", bv);
    assert Max(1, bv.currentRow + k) == value;
    TokenOpens(RowName, k);
    FormulaCell(Token(RowName, k), 0, colIndex, 2, IntToString(value));
  }

  lemma MatrixLetterCell(k: int, colIndex: nat, column: nat, name: string)
    requires 0 <= k && column == colIndex + 1 + k
    requires name == ColumnLetter(column)
    ensures SubstituteCell("=" + Token(LetterName, k), 0, colIndex, 2) == "=" + name
  {
    var bv := BaseVariables(colIndex + 1, 1, 2);
    SubstituteLetterToken("=", k, "", bv);
    assert Max(1, bv.currentColumn + k) == column;
    TokenOpens(LetterName, k);
    FormulaCell(Token(LetterName, k), 0, colIndex, 2, name);
  }

  lemma MatrixCountCell()
    ensures SubstituteCell("=" + Token(CountName, 0), 1, 1, 2) == "=" + "2"
  {
    var bv := BaseVariables(2, 2, 2);
    SubstituteRowCountToken("=", 0, "", bv);
    assert IntToString(2) == "2";
    TokenOpens(CountName, 0);
    FormulaCell(Token(CountName, 0), 1, 1, 2, "2");
  }

  /** What the spreadsheet evaluator reports for one cell. */
  datatype Evaluation = Threw | Value(value: Option<string>)

  /** The value `calculateDataFormulas` gives a cell: formulas are evaluated, "#ERROR" when evaluation throws. */
  function CalculatedCell(cell: string, evaluation: Evaluation): string
  {
    if StartsWith(cell, "=") then
      match evaluation
      case Threw => "#ERROR"
      case Value(v) => v.GetOr("")
    else cell
  }

  /** `calculateDataFormulas` over an evaluator given as a function of the cell position. */
  method CalculateDataFormulas(inputData: seq<seq<string>>, evaluate: (nat, nat) -> Evaluation)
    returns (result: seq<seq<string>>)
    ensures SameShape(result, inputData)
    ensures forall r, c :: 0 <= r < |inputData| && 0 <= c < |inputData[r]| ==>
      result[r][c] == CalculatedCell(inputData[r][c], evaluate(r, c))
  {
    result := [];
    var rowIndex := 0;
    while rowIndex < |inputData|
      invariant 0 <= rowIndex <= |inputData|
      invariant |result| == rowIndex
      invariant forall r :: 0 <= r < rowIndex ==> |result[r]| == |inputData[r]|
      invariant forall r, c :: 0 <= r < rowIndex && 0 <= c < |inputData[r]| ==>
        result[r][c] == CalculatedCell(inputData[r][c], evaluate(r, c))
    {
      var row := inputData[rowIndex];
      var resultRow: seq<string> := [];
      var colIndex := 0;
      while colIndex < |row|
        invariant 0 <= colIndex <= |row|
        invariant |resultRow| == colIndex
        invariant forall c :: 0 <= c < colIndex ==>
          resultRow[c] == CalculatedCell(row[c], evaluate(rowIndex, c))
      {
        var cell := row[colIndex];
        if StartsWith(cell, "=") {
          match evaluate(rowIndex, colIndex)
          case Threw =>
            resultRow := resultRow + ["#ERROR"];
          case Value(v) =>
            resultRow := resultRow + [v.GetOr("")];
        } else {
          resultRow := resultRow + [cell];
        }
        colIndex := colIndex + 1;
      }
      result := result + [resultRow];
      rowIndex := rowIndex + 1;
    }
  }
}
