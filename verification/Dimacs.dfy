/**
 CNF formulas: the DIMACS writer, a reader of the format ("Satisfiability: Suggested
 Format", section 2.1), and the assignment checker.
 */
module Dimacs {
  import opened Outcomes
  import opened Ordering

  type Clause = seq<int>

  datatype Cnf = Cnf(variables: seq<int>, clauses: seq<Clause>, origins: Option<seq<seq<string>>>)

  /** What a DIMACS file says. */
  datatype Formula = Formula(variables: nat, clauses: seq<Clause>)

  // ----- shape -----

  predicate LiteralInRange(lit: int, n: nat) {
    lit != 0 && 0 - n <= lit <= n
  }

  predicate ClauseInRange(clause: Clause, n: nat) {
    forall j :: 0 <= j < |clause| ==> LiteralInRange(clause[j], n)
  }

  predicate ValidShape(c: Cnf) {
    && (c.origins.Some? ==>
          && |c.origins.value| == |c.clauses|
          && forall i :: 0 <= i < |c.origins.value| ==> "" !in c.origins.value[i])
    && (forall i :: 0 <= i < |c.variables| ==> c.variables[i] == i + 1)
    && (forall i :: 0 <= i < |c.clauses| ==> ClauseInRange(c.clauses[i], |c.variables|))
  }

  method CheckClause(clause: Clause, n: nat) returns (ok: bool)
    ensures ok <==> ClauseInRange(clause, n)
  {
    for j := 0 to |clause|
      invariant forall k :: 0 <= k < j ==> LiteralInRange(clause[k], n)
    {
      var lit := clause[j];
      if lit == 0 || lit > n || lit < 0 - n {
        return false;
      }
    }
    return true;
  }

  method CheckShape(c: Cnf) returns (ok: bool)
    ensures ok <==> ValidShape(c)
  {
    if c.origins.Some? {
      if |c.origins.value| != |c.clauses| {
        return false;
      }
      for i := 0 to |c.origins.value|
        invariant forall k :: 0 <= k < i ==> "" !in c.origins.value[k]
      {
        for j := 0 to |c.origins.value[i]|
          invariant forall k :: 0 <= k < j ==> c.origins.value[i][k] != ""
        {
          if c.origins.value[i][j] == "" {
            return false;
          }
        }
      }
    }
    for i := 0 to |c.variables|
      invariant forall k :: 0 <= k < i ==> c.variables[k] == k + 1
    {
      if c.variables[i] != i + 1 {
        return false;
      }
    }
    for i := 0 to |c.clauses|
      invariant forall k :: 0 <= k < i ==> ClauseInRange(c.clauses[k], |c.variables|)
    {
      var fine := CheckClause(c.clauses[i], |c.variables|);
      if !fine {
        return false;
      }
    }
    return true;
  }

  // ----- writing -----

  function Digit(d: nat): char
    requires d < 10
  {
    '0' + d as char
  }

  function Natural(n: nat): string {
    if n < 10 then [Digit(n)] else Natural(n / 10) + [Digit(n % 10)]
  }

  function Decimal(i: int): string {
    if i < 0 then "-" + Natural(-i) else Natural(i)
  }

  function LiteralText(clause: Clause): string {
    if clause == [] then "" else LiteralText(clause[..|clause| - 1]) + (Decimal(clause[|clause| - 1]) + " ")
  }

  function ClauseText(clause: Clause): string {
    LiteralText(clause) + "0\n"
  }

  function BodyText(clauses: seq<Clause>): string {
    if clauses == [] then "" else BodyText(clauses[..|clauses| - 1]) + ClauseText(clauses[|clauses| - 1])
  }

  function HeaderText(variables: nat, clauses: nat): string {
    "p cnf " + Natural(variables) + " " + Natural(clauses) + "\n"
  }

  function Written(c: Cnf): string {
    HeaderText(|c.variables|, |c.clauses|) + BodyText(c.clauses)
  }

  /** The output stream: every write appends. */
  class Stream {
    var text: string

    constructor ()
      ensures text == ""
    {
      text := "";
    }

    method Write(s: string)
      modifies this
      ensures text == old(text) + s
    {
      text := text + s;
    }
  }

  method WriteDimacs(c: Cnf, w: Stream) returns (ok: bool)
    modifies w
    ensures ok <==> ValidShape(c)
    ensures w.text == if ok then old(w.text) + Written(c) else old(w.text)
  {
    ok := CheckShape(c);
    if !ok {
      return;
    }
    ghost var before, header := w.text, HeaderText(|c.variables|, |c.clauses|);
    w.Write(HeaderText(|c.variables|, |c.clauses|));
    for i := 0 to |c.clauses|
      invariant w.text == before + (header + BodyText(c.clauses[..i]))
    {
      assert c.clauses[..i + 1][..i] == c.clauses[..i];
      Associate(before, header + BodyText(c.clauses[..i]), ClauseText(c.clauses[i]));
      Associate(header, BodyText(c.clauses[..i]), ClauseText(c.clauses[i]));
      WriteClause(c.clauses[i], w);
    }
    assert c.clauses[..|c.clauses|] == c.clauses;
  }

  lemma Associate(a: string, b: string, c: string)
    ensures (a + b) + c == a + (b + c)
  {
  }

  method WriteClause(clause: Clause, w: Stream)
    modifies w
    ensures w.text == old(w.text) + ClauseText(clause)
  {
    ghost var start := w.text;
    for j := 0 to |clause|
      invariant w.text == start + LiteralText(clause[..j])
    {
      assert clause[..j + 1][..j] == clause[..j];
      Associate(start, LiteralText(clause[..j]), Decimal(clause[j]) + " ");
      w.Write(Decimal(clause[j]) + " ");
    }
    assert clause[..|clause|] == clause;
    Associate(start, LiteralText(clause), "0\n");
    w.Write("0\n");
  }

  // ----- reading -----

  predicate Separator(ch: char) {
    ch == ' ' || ch == '\n'
  }

  /** Words between separators; `word` is the part of a word already read. */
  function Words(s: string, word: string): seq<string> {
    if s == "" then (if word == "" then [] else [word])
    else if !Separator(s[0]) then Words(s[1..], word + [s[0]])
    else if word == "" then Words(s[1..], "")
    else [word] + Words(s[1..], "")
  }

  function DigitValue(ch: char): Option<nat> {
    if '0' <= ch <= '9' then Some((ch as int) - ('0' as int)) else None
  }

  function ReadNatural(s: string): Option<nat> {
    if s == "" then None
    else
      var last := DigitValue(s[|s| - 1]);
      if last.None? then None
      else if |s| == 1 then last
      else
        var front := ReadNatural(s[..|s| - 1]);
        if front.None? then None else Some(10 * front.value + last.value)
  }

  function ReadDecimal(s: string): Option<int> {
    if s != "" && s[0] == '-' then
      var n := ReadNatural(s[1..]);
      if n.None? then None else Some(0 - n.value)
    else
      var n := ReadNatural(s);
      if n.None? then None else Some(n.value)
  }

  /** Literals up to each closing 0; an unfinished clause is an error. */
  function ReadClauses(words: seq<string>, clause: Clause): Option<seq<Clause>> {
    if words == [] then (if clause == [] then Some([]) else None)
    else
      var lit := ReadDecimal(words[0]);
      if lit.None? then None
      else if lit.value != 0 then ReadClauses(words[1..], clause + [lit.value])
      else
        var rest := ReadClauses(words[1..], []);
        if rest.None? then None else Some([clause] + rest.value)
  }

  function ReadDimacs(text: string): Option<Formula> {
    var words := Words(text, "");
    if |words| < 4 || words[0] != "p" || words[1] != "cnf" then None
    else
      var n, m, clauses := ReadNatural(words[2]), ReadNatural(words[3]), ReadClauses(words[4..], []);
      if n.None? || m.None? || clauses.None? || |clauses.value| != m.value then None
      else Some(Formula(n.value, clauses.value))
  }

  // ----- the round trip -----

  /** A printed number: not empty, without separators, and read back as itself. */
  predicate Word(s: string) {
    s != "" && forall i :: 0 <= i < |s| ==> !Separator(s[i])
  }

  lemma {:induction false} NaturalReadsBack(n: nat)
    ensures Word(Natural(n)) && Natural(n)[0] != '-' && ReadNatural(Natural(n)) == Some(n)
  {
    if n >= 10 {
      NaturalReadsBack(n / 10);
      var s := Natural(n);
      assert s[..|s| - 1] == Natural(n / 10) && s[|s| - 1] == Digit(n % 10);
    }
  }

  lemma NegativeReadsBack(s: string, n: nat)
    requires Word(s) && ReadNatural(s) == Some(n)
    ensures Word(['-'] + s) && ReadDecimal(['-'] + s) == Some(0 - n)
  {
    assert (['-'] + s)[1..] == s;
  }

  lemma DecimalReadsBack(i: int)
    ensures Word(Decimal(i)) && ReadDecimal(Decimal(i)) == Some(i)
  {
    if i < 0 {
      var n: nat := -i;
      NaturalReadsBack(n);
      NegativeReadsBack(Natural(n), n);
      assert Decimal(i) == ['-'] + Natural(n);
    } else {
      var n: nat := i;
      NaturalReadsBack(n);
      assert Decimal(i) == Natural(n);
    }
  }

  lemma {:induction false} WordSplitsOff(word: string, t: string, sep: char, rest: string)
    requires Separator(sep) && (word != "" || t != "") && forall i :: 0 <= i < |t| ==> !Separator(t[i])
    ensures Words(t + [sep] + rest, word) == [word + t] + Words(rest, "")
    decreases |t|
  {
    var s := t + [sep] + rest;
    if t == "" {
      assert s[1..] == rest && word + t == word;
    } else {
      WordSplitsOff(word + [t[0]], t[1..], sep, rest);
      assert s[1..] == t[1..] + [sep] + rest;
      assert word + t == word + [t[0]] + t[1..];
    }
  }

  function LiteralWords(clause: Clause): seq<string> {
    if clause == [] then [] else LiteralWords(clause[..|clause| - 1]) + [Decimal(clause[|clause| - 1])]
  }

  function BodyWords(clauses: seq<Clause>): seq<string> {
    if clauses == [] then []
    else BodyWords(clauses[..|clauses| - 1]) + LiteralWords(clauses[|clauses| - 1]) + ["0"]
  }

  lemma {:induction false} LiteralsSplit(clause: Clause, rest: string)
    ensures Words(LiteralText(clause) + rest, "") == LiteralWords(clause) + Words(rest, "")
  {
    if clause == [] {
      assert LiteralText(clause) + rest == rest;
    } else {
      var front, last := clause[..|clause| - 1], clause[|clause| - 1];
      DecimalReadsBack(last);
      assert LiteralText(clause) + rest == LiteralText(front) + (Decimal(last) + [' '] + rest);
      LiteralsSplit(front, Decimal(last) + [' '] + rest);
      WordSplitsOff("", Decimal(last), ' ', rest);
      assert "" + Decimal(last) == Decimal(last);
    }
  }

  lemma {:induction false} BodySplits(clauses: seq<Clause>, rest: string)
    ensures Words(BodyText(clauses) + rest, "") == BodyWords(clauses) + Words(rest, "")
  {
    if clauses == [] {
      assert BodyText(clauses) + rest == rest;
    } else {
      var front, last := clauses[..|clauses| - 1], clauses[|clauses| - 1];
      assert BodyText(clauses) + rest == BodyText(front) + (LiteralText(last) + (['0'] + ['\n'] + rest));
      BodySplits(front, LiteralText(last) + (['0'] + ['\n'] + rest));
      LiteralsSplit(last, ['0'] + ['\n'] + rest);
      WordSplitsOff("", ['0'], '\n', rest);
      assert "" + ['0'] == "0";
    }
  }

  lemma {:induction false} LiteralsReadBack(clause: Clause, done: Clause, rest: seq<string>)
    requires forall j :: 0 <= j < |clause| ==> clause[j] != 0
    ensures ReadClauses(LiteralWords(clause) + rest, done) == ReadClauses(rest, done + clause)
  {
    if clause == [] {
      assert LiteralWords(clause) + rest == rest && done + clause == done;
    } else {
      var front, last := clause[..|clause| - 1], clause[|clause| - 1];
      assert LiteralWords(clause) + rest == LiteralWords(front) + ([Decimal(last)] + rest);
      LiteralsReadBack(front, done, [Decimal(last)] + rest);
      DecimalReadsBack(last);
      assert ([Decimal(last)] + rest)[1..] == rest;
      assert done + front + [last] == done + clause;
    }
  }

  lemma {:induction false} BodyReadsBack(clauses: seq<Clause>, rest: seq<string>)
    requires forall i, j :: 0 <= i < |clauses| && 0 <= j < |clauses[i]| ==> clauses[i][j] != 0
    ensures var r := ReadClauses(rest, []);
            ReadClauses(BodyWords(clauses) + rest, []) == if r.None? then None else Some(clauses + r.value)
  {
    if clauses == [] {
      assert BodyWords(clauses) + rest == rest;
      assert forall r: seq<Clause> :: [] + r == r;
    } else {
      var front, last := clauses[..|clauses| - 1], clauses[|clauses| - 1];
      var tail := LiteralWords(last) + (["0"] + rest);
      assert BodyWords(clauses) + rest == BodyWords(front) + tail;
      BodyReadsBack(front, tail);
      ClauseReadsBack(last, rest);
      var r := ReadClauses(rest, []);
      if r.Some? {
        assert front + ([last] + r.value) == clauses + r.value;
      }
    }
  }

  lemma ClauseReadsBack(clause: Clause, rest: seq<string>)
    requires forall j :: 0 <= j < |clause| ==> clause[j] != 0
    ensures var r := ReadClauses(rest, []);
            ReadClauses(LiteralWords(clause) + (["0"] + rest), []) == if r.None? then None else Some([clause] + r.value)
  {
    LiteralsReadBack(clause, [], ["0"] + rest);
    assert [] + clause == clause;
    DecimalReadsBack(0);
    assert (["0"] + rest)[1..] == rest && (["0"] + rest)[0] == Decimal(0);
  }

  /** A word and the separator after it. */
  lemma WordFirst(word: string, sep: char, rest: string)
    requires Separator(sep) && Word(word)
    ensures Words(word + ([sep] + rest), "") == [word] + Words(rest, "")
  {
    WordSplitsOff("", word, sep, rest);
    assert "" + word == word;
    Associate(word, [sep], rest);
  }

  /** Two numbers, a space between them and a line end after them. */
  lemma NumbersSplit(n: nat, m: nat, rest: string)
    ensures Words(Natural(n) + ([' '] + (Natural(m) + (['\n'] + rest))), "") ==
            [Natural(n)] + ([Natural(m)] + Words(rest, ""))
  {
    NaturalReadsBack(n);
    NaturalReadsBack(m);
    WordFirst(Natural(n), ' ', Natural(m) + (['\n'] + rest));
    WordFirst(Natural(m), '\n', rest);
  }

  lemma HeaderJoins(a: string, b: string, rest: string)
    ensures ("p cnf " + a + " " + b + "\n") + rest ==
            ['p'] + ([' '] + (['c', 'n', 'f'] + ([' '] + (a + ([' '] + (b + (['\n'] + rest)))))))
  {
    assert "p cnf " == ['p'] + ([' '] + (['c', 'n', 'f'] + [' ']));
  }

  lemma HeaderSplits(n: nat, m: nat, rest: string)
    ensures Words(HeaderText(n, m) + rest, "") == ["p", "cnf", Natural(n), Natural(m)] + Words(rest, "")
  {
    var numbers := Natural(n) + ([' '] + (Natural(m) + (['\n'] + rest)));
    HeaderJoins(Natural(n), Natural(m), rest);
    WordFirst(['p'], ' ', ['c', 'n', 'f'] + ([' '] + numbers));
    WordFirst(['c', 'n', 'f'], ' ', numbers);
    NumbersSplit(n, m, rest);
    assert ['p'] == "p" && ['c', 'n', 'f'] == "cnf";
  }

  /** A reader of the format recovers the variable count and the clause list from the written bytes. */
  lemma WrittenReadsBack(c: Cnf)
    requires ValidShape(c)
    ensures ReadDimacs(Written(c)) == Some(Formula(|c.variables|, c.clauses))
  {
    var n, m := |c.variables|, |c.clauses|;
    HeaderSplits(n, m, BodyText(c.clauses));
    BodySplits(c.clauses, "");
    assert BodyText(c.clauses) + "" == BodyText(c.clauses);
    forall i, j | 0 <= i < |c.clauses| && 0 <= j < |c.clauses[i]|
      ensures c.clauses[i][j] != 0
    {
      assert ClauseInRange(c.clauses[i], n) && LiteralInRange(c.clauses[i][j], n);
    }
    BodyReadsBack(c.clauses, []);
    assert BodyWords(c.clauses) + [] == BodyWords(c.clauses) && c.clauses + [] == c.clauses;
    NaturalReadsBack(n);
    NaturalReadsBack(m);
    var words := Words(Written(c), "");
    assert words[4..] == BodyWords(c.clauses);
  }

  /** So the bytes determine the formula. */
  lemma WrittenDetermines(c: Cnf, d: Cnf)
    requires ValidShape(c) && ValidShape(d) && Written(c) == Written(d)
    ensures |c.variables| == |d.variables| && c.clauses == d.clauses
  {
    WrittenReadsBack(c);
    WrittenReadsBack(d);
  }

  // ----- assignments -----

  predicate LiteralTrue(values: map<int, bool>, lit: int) {
    var id := if lit < 0 then -lit else lit;
    id in values && values[id] == (lit > 0)
  }

  predicate ClauseTrue(values: map<int, bool>, clause: Clause) {
    exists j :: 0 <= j < |clause| && LiteralTrue(values, clause[j])
  }

  /** The variable ids 1 to n. */
  function Ids(n: nat): (ids: set<int>)
    ensures forall i :: i in ids <==> 1 <= i <= n
    ensures |ids| == n
  {
    if n == 0 then {} else Ids(n - 1) + {n}
  }

  method CheckTotal(values: map<int, bool>, n: nat) returns (ok: bool)
    ensures ok <==> values.Keys == Ids(n)
  {
    assert |values.Keys| == |values|;
    if |values| != n {
      return false;
    }
    for i := 1 to n + 1
      invariant forall k :: 1 <= k < i ==> k in values.Keys
    {
      if i !in values {
        assert i in Ids(n);
        return false;
      }
    }
    SameSizeSubset(Ids(n), values.Keys);
    return true;
  }

  method CheckClauseTrue(clause: Clause, values: map<int, bool>, n: nat) returns (ok: bool)
    requires values.Keys == Ids(n) && ClauseInRange(clause, n)
    ensures ok <==> ClauseTrue(values, clause)
  {
    ok := false;
    for j := 0 to |clause|
      invariant !ok && forall k :: 0 <= k < j ==> !LiteralTrue(values, clause[k])
    {
      assert LiteralInRange(clause[j], n);
      var id := if clause[j] < 0 then -clause[j] else clause[j];
      assert id in Ids(n);
      if values[id] == (clause[j] > 0) {
        ok := true;
        break;
      }
    }
  }

  /** Success means a well-shaped formula, a total assignment on exactly its variables, and every clause true. */
  method CheckAssignment(c: Cnf, values: map<int, bool>) returns (ok: bool)
    ensures ok <==>
            && ValidShape(c) && values.Keys == Ids(|c.variables|)
            && forall i :: 0 <= i < |c.clauses| ==> ClauseTrue(values, c.clauses[i])
  {
    ok := CheckShape(c);
    if !ok {
      return;
    }
    ok := CheckTotal(values, |c.variables|);
    if !ok {
      return;
    }
    for i := 0 to |c.clauses|
      invariant forall k :: 0 <= k < i ==> ClauseTrue(values, c.clauses[k])
    {
      ok := CheckClauseTrue(c.clauses[i], values, |c.variables|);
      if !ok {
        return;
      }
    }
    return true;
  }
}
