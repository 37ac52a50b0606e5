/**
 * Token tables: the finite maps from literal `{{NAME±K}}` keys to replacement
 * texts that the two older spreadsheet exporters build, and the two ways they
 * apply such a map to a formula (every occurrence, or the first one only).
 */
module TokenTables {
  import opened Wrappers
  import opened JsString
  import opened Seqs
  import opened Formula

  /** The four variable names a key can carry. */
  predicate IsName(n: string) {
    n == RowName || n == ColumnName || n == LetterName || n == CountName
  }

  /** One key of a table, `{{name±offset}}`, and the text it stands for. */
  datatype Binding = Binding(name: string, offset: int, value: string)

  /** The table as the insertion-ordered map of key texts the source builds. */
  function Entries(bs: seq<Binding>): (r: seq<(string, string)>)
    ensures |r| == |bs| && KeysAreTokens(r)
    ensures forall i :: 0 <= i < |bs| ==> r[i] == (Token(bs[i].name, bs[i].offset), bs[i].value)
  {
    seq(|bs|, i requires 0 <= i < |bs| => (Token(bs[i].name, bs[i].offset), bs[i].value))
  }

  /** Every key is named by one of the four names and no value holds a brace. */
  predicate WellFormed(bs: seq<Binding>) {
    forall i :: 0 <= i < |bs| ==> IsName(bs[i].name) && '{' !in bs[i].value
  }

  /** No two bindings share a name and an offset. */
  predicate Distinct(bs: seq<Binding>) {
    forall i, j :: 0 <= i < j < |bs| ==> bs[i].name != bs[j].name || bs[i].offset != bs[j].offset
  }

  /** Binding `i` is the one for `{{name±k}}`. */
  predicate Binds(bs: seq<Binding>, name: string, k: int, i: int) {
    0 <= i < |bs| && bs[i].name == name && bs[i].offset == k
  }

  // ---------------------------------------------------------------------------
  // Keys are determined by their text
  // ---------------------------------------------------------------------------

  /** `{{CURRENT_COLUMN_LETTER` does not open a `{{CURRENT_COLUMN±K}}` token: the next character differs. */
  lemma LetterNameMissesColumnToken(k: int, b: string)
    ensures MatchToken(Token(ColumnName, k) + b, LetterName).None?
  {
    NameFacts();
    var s := Token(ColumnName, k) + b;
    var o := OffsetText(k);
    assert s[16] == (o + "}}")[0];
    assert (o + "}}")[0] != '_' by {
      if k != 0 {
        assert o[0] == '+' || o[0] == '-';
      }
    }
    assert ("{{" + LetterName)[16] == '_';
    if |s| >= |"{{" + LetterName| {
      assert s[..|"{{" + LetterName|][16] == s[16];
    }
  }

  /** A token does not match under a different name. */
  lemma NamesDiffer(name: string, k: int, b: string, other: string)
    requires IsName(name) && IsName(other) && name != other
    ensures MatchToken(Token(name, k) + b, other).None?
  {
    NameFacts();
    if name == LetterName && other == ColumnName {
      ColumnNameMissesLetterToken(k, b);
    } else if name == ColumnName && other == LetterName {
      LetterNameMissesColumnToken(k, b);
    } else if name == CountName || other == CountName {
      MatchTokenOtherName(name, k, b, other, 0);
    } else {
      MatchTokenOtherName(name, k, b, other, 8);
    }
  }

  /** Two tokens that open the same text are the same token. */
  lemma TokenAtFront(name: string, k: int, rest: string, n2: string, k2: int, rest2: string)
    requires IsName(name) && IsName(n2)
    ensures Token(name, k) + rest == Token(n2, k2) + rest2 ==> name == n2 && k == k2
  {
    MatchTokenOfToken(n2, k2, rest2);
    MatchTokenOfToken(name, k, rest);
    if name != n2 {
      NamesDiffer(name, k, rest, n2);
    }
  }

  /**
   * `Map.prototype.set` on an insertion-ordered map: a new key goes to the end,
   * an existing key keeps its place and takes the new value.
   */
  function MapSet(m: seq<(string, string)>, key: string, value: string): (r: seq<(string, string)>)
    ensures (forall i :: 0 <= i < |m| ==> m[i].0 != key) ==> r == m + [(key, value)]
    ensures (exists i :: 0 <= i < |m| && m[i].0 == key) ==> |r| == |m| && Lookup(r, key) == Some(value)
  {
    if m == [] then [(key, value)]
    else if m[0].0 == key then [(key, value)] + m[1..]
    else
      assert (exists i :: 0 <= i < |m| && m[i].0 == key) ==> exists i :: 0 <= i < |m[1..]| && m[1..][i].0 == key by {
        forall i | 0 <= i < |m| && m[i].0 == key ensures 0 <= i - 1 < |m[1..]| && m[1..][i - 1].0 == key { }
      }
      [m[0]] + MapSet(m[1..], key, value)
  }

  /** Two keys with the same text have the same name and offset. */
  lemma TokenInjective(name: string, k: int, n2: string, k2: int)
    requires IsName(name) && IsName(n2)
    ensures Token(name, k) == Token(n2, k2) ==> name == n2 && k == k2
  {
    TokenAtFront(name, k, [], n2, k2, []);
    assert Token(name, k) + [] == Token(name, k);
    assert Token(n2, k2) + [] == Token(n2, k2);
  }

  /** The keys of a table without repeated bindings are pairwise different texts. */
  lemma EntriesDistinct(bs: seq<Binding>)
    requires WellFormed(bs) && Distinct(bs)
    ensures forall i, j :: 0 <= i < j < |bs| ==> Entries(bs)[i].0 != Entries(bs)[j].0
  {
    forall i, j | 0 <= i < j < |bs| ensures Entries(bs)[i].0 != Entries(bs)[j].0 {
      TokenInjective(bs[i].name, bs[i].offset, bs[j].name, bs[j].offset);
    }
  }

  /** Setting binding `n` of a table without repeated bindings appends it: its key is new. */
  lemma EntriesStep(bs: seq<Binding>, n: nat)
    requires WellFormed(bs) && Distinct(bs) && n < |bs|
    ensures MapSet(Entries(bs[..n]), Token(bs[n].name, bs[n].offset), bs[n].value) == Entries(bs[..n + 1])
  {
    var prefix := Entries(bs[..n]);
    var key := Token(bs[n].name, bs[n].offset);
    forall i | 0 <= i < |prefix| ensures prefix[i].0 != key {
      TokenInjective(bs[i].name, bs[i].offset, bs[n].name, bs[n].offset);
    }
    assert prefix + [(key, bs[n].value)] == Entries(bs[..n + 1]);
  }

  /** After a brace-free prefix, a key that opens with "{{" can occur inside "{{" + tail only at its start. */
  lemma BraceOccurrence(x: string, tail: string, y: string, key: string, j: nat)
    requires '{' !in x && '{' !in tail && |tail| > 0
    requires |key| >= 2 && key[0] == '{' && key[1] == '{'
    requires j < |x| + 2 + |tail|
    ensures OccursAt(x + ("{{" + tail) + y, key, j) ==> j == |x|
  {
    var s := x + ("{{" + tail) + y;
    forall i | 0 <= i < |x| ensures s[i] != '{' {
      assert s[i] == x[i] && x[i] in x;
    }
    forall i | |x| + 2 <= i < |x| + 2 + |tail| ensures s[i] != '{' {
      assert s[i] == tail[i - |x| - 2] && tail[i - |x| - 2] in tail;
    }
    if OccursAt(s, key, j) {
      assert s[j] == key[0] && s[j + 1] == key[1];
    }
  }

  lemma NameBraceFree(n: string)
    requires IsName(n)
    ensures '{' !in n && |n| > 0
  {
    NameFacts();
  }

  /** A token is "{{" followed by a non-empty brace-free tail. */
  lemma TokenOpens(name: string, k: int)
    requires IsName(name)
    ensures Token(name, k) == "{{" + (name + OffsetText(k) + "}}")
    ensures '{' !in name + OffsetText(k) + "}}"
  {
    NameBraceFree(name);
    TokenShape(name, k, []);
    assert Token(name, k) + [] == Token(name, k);
  }

  /** What an occurrence at the front of the middle part says about the text after the prefix. */
  lemma OccurrenceAtMiddle(x: string, t: string, y: string, key: string)
    requires OccursAt(x + t + y, key, |x|)
    ensures t + y == key + (x + t + y)[|x| + |key|..]
  {
    var s := x + t + y;
    assert s[|x|..] == t + y;
    assert s[|x|..] == s[|x|..|x| + |key|] + s[|x| + |key|..];
  }

  /**
   * In a text with one token between brace-free texts, a key can only occur where
   * the token stands, and only when it is that very token.
   */
  lemma OccurrenceIsToken(x: string, name: string, k: int, y: string, n2: string, k2: int, j: nat)
    requires '{' !in x && IsName(name) && IsName(n2)
    requires j < |x| + |Token(name, k)|
    ensures OccursAt(x + Token(name, k) + y, Token(n2, k2), j) ==> j == |x| && name == n2 && k == k2
  {
    var t := Token(name, k);
    var key := Token(n2, k2);
    TokenOpens(name, k);
    TokenOpens(n2, k2);
    BraceOccurrence(x, name + OffsetText(k) + "}}", y, key, j);
    if OccursAt(x + t + y, key, j) {
      OccurrenceAtMiddle(x, t, y, key);
      TokenAtFront(name, k, y, n2, k2, (x + t + y)[|x| + |key|..]);
    }
  }

  /** A different key does not occur in a text with one token between brace-free texts. */
  lemma OtherKeyAbsent(a: string, name: string, k: int, b: string, n2: string, k2: int)
    requires '{' !in a && '{' !in b && IsName(name) && IsName(n2)
    requires name != n2 || k != k2
    ensures forall j: nat :: !OccursAt(a + Token(name, k) + b, Token(n2, k2), j)
  {
    var t := Token(name, k);
    forall j: nat ensures !OccursAt(a + t + b, Token(n2, k2), j) {
      if j < |a| + |t| {
        OccurrenceIsToken(a, name, k, b, n2, k2, j);
      } else {
        OccursAtShift(a + t, b, Token(n2, k2), j);
        NoBraceNoOccurrence(b, Token(n2, k2));
      }
    }
  }

  /** A different key does not occur in a text with two copies of one token between brace-free texts. */
  lemma OtherKeyAbsentTwice(a: string, name: string, k: int, b: string, c: string, n2: string, k2: int)
    requires '{' !in a && '{' !in b && '{' !in c && IsName(name) && IsName(n2)
    requires name != n2 || k != k2
    ensures forall j: nat :: !OccursAt(a + Token(name, k) + b + Token(name, k) + c, Token(n2, k2), j)
  {
    var t := Token(name, k);
    var s := a + t + b + t + c;
    assert s == a + t + (b + t + c);
    assert s == (a + t) + (b + t + c);
    OtherKeyAbsent(b, name, k, c, n2, k2);
    forall j: nat ensures !OccursAt(s, Token(n2, k2), j) {
      if j < |a| + |t| {
        OccurrenceIsToken(a, name, k, b + t + c, n2, k2, j);
      } else {
        OccursAtShift(a + t, b + t + c, Token(n2, k2), j);
      }
    }
  }

  // ---------------------------------------------------------------------------
  // Walking a table one binding at a time
  // ---------------------------------------------------------------------------

  /** The table after its first binding, and what is kept of the table's properties. */
  lemma TableTail(bs: seq<Binding>, name: string, k: int)
    requires bs != [] && WellFormed(bs) && Distinct(bs)
    ensures Entries(bs)[1..] == Entries(bs[1..])
    ensures WellFormed(bs[1..]) && Distinct(bs[1..])
    ensures forall i :: Binds(bs, name, k, i) && i != 0 ==> Binds(bs[1..], name, k, i - 1)
    ensures Binds(bs, name, k, 0) ==> forall i :: !Binds(bs[1..], name, k, i)
    ensures (forall i :: !Binds(bs, name, k, i)) ==> forall i :: !Binds(bs[1..], name, k, i)
  {
    assert |Entries(bs)[1..]| == |Entries(bs[1..])|;
    assert forall i :: 0 <= i < |bs| - 1 ==> Entries(bs)[1..][i] == Entries(bs[1..])[i];
    assert forall i :: Binds(bs[1..], name, k, i) ==> Binds(bs, name, k, i + 1);
  }

  /** Replacing every copy of a brace-led pattern in brace-free text around one copy. */
  lemma ReplaceTokenOnce(a: string, t: string, b: string, v: string)
    requires '{' !in a && '{' !in b && |t| > 0 && t[0] == '{'
    ensures ReplaceAll(a + t + b, t, v) == a + v + b
  {
    assert a + t + b == a + (t + b);
    ReplaceAllSkip(a, t + b, t, v);
    ReplaceAllHead(t, b, v);
    NoBraceNoOccurrence(b, t);
    ReplaceAllAbsent(b, t, v);
  }

  /** Replacing every copy of a brace-led pattern in brace-free text around two copies. */
  lemma ReplaceTokenTwice(a: string, t: string, b: string, c: string, v: string)
    requires '{' !in a && '{' !in b && '{' !in c && |t| > 0 && t[0] == '{'
    ensures ReplaceAll(a + t + b + t + c, t, v) == a + v + b + v + c
  {
    var rest := b + t + c;
    Regroup(a, t, b, c);
    ReplaceAllSkip(a, t + rest, t, v);
    ReplaceAllHead(t, rest, v);
    ReplaceTokenOnce(b, t, c, v);
    Regroup(a, v, b, c);
  }

  lemma Regroup(a: string, t: string, b: string, c: string)
    ensures a + t + b + t + c == a + (t + (b + t + c))
  {
  }

  // ---------------------------------------------------------------------------
  // Replace every occurrence (a global regular expression per key)
  // ---------------------------------------------------------------------------

  /** The first binding leaves a text without its token unchanged: the rest of the table does all the work. */
  lemma ApplyAllSkipsAbsent(s: string, bs: seq<Binding>)
    requires bs != [] && forall j: nat :: !OccursAt(s, Token(bs[0].name, bs[0].offset), j)
    ensures ApplyAll(s, Entries(bs)) == ApplyAll(s, Entries(bs[1..]))
  {
    ReplaceAllAbsent(s, Token(bs[0].name, bs[0].offset), bs[0].value);
    assert Entries(bs)[1..] == Entries(bs[1..]);
  }

  /** A bound token between brace-free texts becomes the value of its binding. */
  lemma {:induction false} ApplyAllBound(a: string, name: string, k: int, b: string, bs: seq<Binding>, i: int)
    requires '{' !in a && '{' !in b && IsName(name)
    requires WellFormed(bs) && Distinct(bs) && Binds(bs, name, k, i)
    ensures ApplyAll(a + Token(name, k) + b, Entries(bs)) == a + bs[i].value + b
    decreases |bs|
  {
    var t := Token(name, k);
    var v := bs[0].value;
    TableTail(bs, name, k);
    if i == 0 {
      ReplaceTokenOnce(a, t, b, v);
      ApplyAllBraceFree(a + v + b, Entries(bs[1..]));
    } else {
      OtherKeyAbsent(a, name, k, b, bs[0].name, bs[0].offset);
      ApplyAllSkipsAbsent(a + t + b, bs);
      ApplyAllBound(a, name, k, b, bs[1..], i - 1);
      assert bs[1..][i - 1] == bs[i];
    }
  }

  /** A token the table does not bind survives between brace-free texts. */
  lemma {:induction false} ApplyAllUnbound(a: string, name: string, k: int, b: string, bs: seq<Binding>)
    requires '{' !in a && '{' !in b && IsName(name)
    requires WellFormed(bs) && Distinct(bs) && forall i :: !Binds(bs, name, k, i)
    ensures ApplyAll(a + Token(name, k) + b, Entries(bs)) == a + Token(name, k) + b
    decreases |bs|
  {
    if bs != [] {
      TableTail(bs, name, k);
      assert !Binds(bs, name, k, 0);
      OtherKeyAbsent(a, name, k, b, bs[0].name, bs[0].offset);
      ApplyAllSkipsAbsent(a + Token(name, k) + b, bs);
      ApplyAllUnbound(a, name, k, b, bs[1..]);
    }
  }

  /** Both copies of a bound token are replaced. */
  lemma {:induction false} ApplyAllBoundTwice(a: string, name: string, k: int, b: string, c: string, bs: seq<Binding>, i: int)
    requires '{' !in a && '{' !in b && '{' !in c && IsName(name)
    requires WellFormed(bs) && Distinct(bs) && Binds(bs, name, k, i)
    ensures ApplyAll(a + Token(name, k) + b + Token(name, k) + c, Entries(bs)) == a + bs[i].value + b + bs[i].value + c
    decreases |bs|
  {
    var t := Token(name, k);
    var v := bs[0].value;
    TableTail(bs, name, k);
    if i == 0 {
      ReplaceTokenTwice(a, t, b, c, v);
      ApplyAllBraceFree(a + v + b + v + c, Entries(bs[1..]));
    } else {
      OtherKeyAbsentTwice(a, name, k, b, c, bs[0].name, bs[0].offset);
      ReplaceAllAbsent(a + t + b + t + c, Token(bs[0].name, bs[0].offset), v);
      ApplyAllBoundTwice(a, name, k, b, c, bs[1..], i - 1);
    }
  }

  // ---------------------------------------------------------------------------
  // Replace the first occurrence only (a string pattern per key)
  // ---------------------------------------------------------------------------

  /** Every entry, in order, replaced in its first occurrence only. */
  function ApplyFirst(formula: string, vars: seq<(string, string)>): string
    decreases |vars|
  {
    if vars == [] then formula else ApplyFirst(ReplaceFirst(formula, vars[0].0, vars[0].1), vars[1..])
  }

  /** Text in which no key occurs is returned unchanged. */
  lemma {:induction false} ApplyFirstAbsent(s: string, vars: seq<(string, string)>)
    requires forall e, j: nat :: 0 <= e < |vars| ==> !OccursAt(s, vars[e].0, j)
    ensures ApplyFirst(s, vars) == s
    decreases |vars|
  {
    if vars != [] {
      assert forall j: nat :: !OccursAt(s, vars[0].0, j);
      assert ReplaceFirst(s, vars[0].0, vars[0].1) == s;
      ApplyFirstAbsent(s, vars[1..]);
    }
  }

  /** Text without braces survives every first-occurrence replacement of keys that start with a brace. */
  lemma BraceFreeUntouched(s: string, vars: seq<(string, string)>)
    requires '{' !in s && KeysAreTokens(vars)
    ensures ApplyFirst(s, vars) == s
  {
    forall e, j: nat | 0 <= e < |vars| ensures !OccursAt(s, vars[e].0, j) {
      NoBraceNoOccurrence(s, vars[e].0);
    }
    ApplyFirstAbsent(s, vars);
  }

  /** A bound token between brace-free texts becomes the value of its binding. */
  lemma {:induction false} ApplyFirstBound(a: string, name: string, k: int, b: string, bs: seq<Binding>, i: int)
    requires '{' !in a && '{' !in b && IsName(name)
    requires WellFormed(bs) && Distinct(bs) && Binds(bs, name, k, i)
    ensures ApplyFirst(a + Token(name, k) + b, Entries(bs)) == a + bs[i].value + b
    decreases |bs|
  {
    var t := Token(name, k);
    var v := bs[0].value;
    TableTail(bs, name, k);
    if i == 0 {
      ReplaceFirstAfter(a, t, b, v);
      BraceFreeUntouched(a + v + b, Entries(bs[1..]));
    } else {
      OtherKeyAbsent(a, name, k, b, bs[0].name, bs[0].offset);
      ApplyFirstBound(a, name, k, b, bs[1..], i - 1);
    }
  }

  /** A token the table does not bind survives between brace-free texts. */
  lemma {:induction false} ApplyFirstUnbound(a: string, name: string, k: int, b: string, bs: seq<Binding>)
    requires '{' !in a && '{' !in b && IsName(name)
    requires WellFormed(bs) && Distinct(bs) && forall i :: !Binds(bs, name, k, i)
    ensures ApplyFirst(a + Token(name, k) + b, Entries(bs)) == a + Token(name, k) + b
    decreases |bs|
  {
    if bs != [] {
      TableTail(bs, name, k);
      assert !Binds(bs, name, k, 0);
      OtherKeyAbsent(a, name, k, b, bs[0].name, bs[0].offset);
      ApplyFirstUnbound(a, name, k, b, bs[1..]);
    }
  }

  /** Of two copies of a brace-led pattern after brace-free text, the first is replaced. */
  lemma FirstOfTwo(a: string, t: string, b: string, c: string, v: string)
    requires '{' !in a && |t| > 0 && t[0] == '{'
    ensures ReplaceFirst(a + t + b + t + c, t, v) == (a + v + b) + t + c
  {
    var rest := b + t + c;
    AppendAssoc(b, t, c);
    AppendAssoc(a + t + b, t, c);
    AppendAssoc(a + t, b, t + c);
    ReplaceFirstAfter(a, t, rest, v);
    AppendAssoc(a + v + b, t, c);
    AppendAssoc(a + v, b, t + c);
  }

  /** A first binding whose key does not occur replaces nothing. */
  lemma ApplyFirstSkipsHead(s: string, bs: seq<Binding>)
    requires bs != [] && WellFormed(bs) && Distinct(bs)
    requires forall j: nat :: !OccursAt(s, Token(bs[0].name, bs[0].offset), j)
    ensures ApplyFirst(s, Entries(bs)) == ApplyFirst(s, Entries(bs[1..]))
  {
    var vars := Entries(bs);
    assert vars[0] == (Token(bs[0].name, bs[0].offset), bs[0].value);
    assert ReplaceFirst(s, vars[0].0, vars[0].1) == s;
    TableTail(bs, bs[0].name, bs[0].offset);
  }

  /** Binding 0 is not the binding `i` of another name or offset. */
  lemma OtherThanHead(bs: seq<Binding>, name: string, k: int, i: int)
    requires Distinct(bs) && Binds(bs, name, k, i) && i != 0
    ensures bs[0].name != name || bs[0].offset != k
  {
    assert 0 < i < |bs|;
  }

  /** Of two copies of a bound token only the first is replaced. */
  lemma {:induction false} ApplyFirstBoundTwice(a: string, name: string, k: int, b: string, c: string, bs: seq<Binding>, i: int)
    requires '{' !in a && '{' !in b && '{' !in c && IsName(name)
    requires WellFormed(bs) && Distinct(bs) && Binds(bs, name, k, i)
    ensures ApplyFirst(a + Token(name, k) + b + Token(name, k) + c, Entries(bs))
         == a + bs[i].value + b + Token(name, k) + c
    decreases |bs|
  {
    var t := Token(name, k);
    var v := bs[0].value;
    TableTail(bs, name, k);
    if i == 0 {
      FirstOfTwo(a, t, b, c, v);
      ApplyFirstUnbound(a + v + b, name, k, c, bs[1..]);
    } else {
      OtherThanHead(bs, name, k, i);
      OtherKeyAbsentTwice(a, name, k, b, c, bs[0].name, bs[0].offset);
      ApplyFirstSkipsHead(a + t + b + t + c, bs);
      ApplyFirstBoundTwice(a, name, k, b, c, bs[1..], i - 1);
    }
  }
}
