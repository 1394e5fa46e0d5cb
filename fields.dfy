/** The field extractor (`find_parameters`): three case-insensitive searches
    over the decoded statement text, each written out as the leftmost-match
    scan that Python's `re.search` performs.

    The balance pattern `(New Balance:|New balance)\b.*?(\$[\d,]+\.\d{2})`
    (with DOTALL and IGNORECASE) reduces to one label: at a position where
    "new balance:" matches and the rest succeeds, the second alternative
    "new balance" also matches there (`:` is not a word character, so `\b`
    holds after the label) and finds the same amount, because `:` cannot
    start an amount. The due-date pattern reduces likewise, since `[^\n]*`
    absorbs the colon of "payment due date:". */
module Fields {
  import opened Text

  const BalanceLabel: string := "new balance"
  const ClosingLabel: string := "statement closing date"
  const DueLabel: string := "payment due date"

  /** The three fields `find_parameters` returns, each absent when its
      pattern does not match. */
  datatype Extracted = Extracted(balance: Option<string>, closing: Option<string>, due: Option<string>)

  // ----- new balance -----

  predicate IsAmountChar(c: char) { IsDigit(c) || c == ',' }

  /** The balance label at `p`, followed by `\b`: the end of the text or a
      character that is not a word character. */
  predicate BalanceLabelAt(s: string, p: nat) {
    LabelAt(s, BalanceLabel, p) &&
    (p + |BalanceLabel| == |s| || !IsWordChar(s[p + |BalanceLabel|]))
  }

  /** `\$[\d,]+\.\d{2}` matches at `q`. The greedy `[\d,]+` takes the whole
      digit-and-comma run after the `$`; giving characters back never helps,
      since what follows a shorter run is a digit or a comma and not `.`. */
  predicate AmountAt(s: string, q: nat) {
    q < |s| && s[q] == '$' &&
    var e := SkipWhile(s, q + 1, IsAmountChar);
    q + 1 < e && e + 3 <= |s| && s[e] == '.' && IsDigit(s[e + 1]) && IsDigit(s[e + 2])
  }

  /** Where the amount matched at `q` ends: two digits after the `.` that ends the run. */
  function AmountEnd(s: string, q: nat): (e: nat)
    requires AmountAt(s, q)
    ensures q + 5 <= e <= |s|
  {
    SkipWhile(s, q + 1, IsAmountChar) + 3
  }

  /** A whole token of the form `$` + digits and commas + `.` + two digits. */
  predicate IsAmountToken(a: string) {
    |a| >= 5 && a[0] == '$' && a[|a| - 3] == '.' && IsDigit(a[|a| - 2]) && IsDigit(a[|a| - 1]) &&
    forall k :: 1 <= k < |a| - 3 ==> IsAmountChar(a[k])
  }

  predicate LeftmostBalanceLabel(s: string, p: nat) {
    BalanceLabelAt(s, p) && forall j: nat :: j < p ==> !BalanceLabelAt(s, j)
  }

  predicate LeftmostAmountFrom(s: string, from: nat, q: nat) {
    from <= q && AmountAt(s, q) && forall j: nat :: from <= j < q ==> !AmountAt(s, j)
  }

  function BalanceLabelStart(s: string): (r: Option<nat>)
    ensures r.Some? ==> LeftmostBalanceLabel(s, r.value)
    ensures r.None? ==> forall j: nat :: j < |s| ==> !BalanceLabelAt(s, j)
  {
    var atLabel := (p: nat) => BalanceLabelAt(s, p);
    assert forall j: nat :: atLabel(j) == BalanceLabelAt(s, j);
    FirstFrom(atLabel, 0, |s|)
  }

  function AmountStart(s: string, from: nat): (r: Option<nat>)
    ensures r.Some? ==> LeftmostAmountFrom(s, from, r.value)
    ensures r.None? ==> forall j: nat :: from <= j < |s| ==> !AmountAt(s, j)
  {
    var atAmount := (q: nat) => AmountAt(s, q);
    assert forall j: nat :: atAmount(j) == AmountAt(s, j);
    FirstFrom(atAmount, from, |s|)
  }

  /** The matched amount is a well-formed amount token. */
  lemma AmountIsToken(s: string, q: nat)
    requires AmountAt(s, q)
    ensures IsAmountToken(s[q..AmountEnd(s, q)])
  {
    var a := s[q..AmountEnd(s, q)];
    var e := SkipWhile(s, q + 1, IsAmountChar);
    forall k | 1 <= k < |a| - 3 ensures IsAmountChar(a[k]) {
      assert a[k] == s[q + k];
    }
  }

  /** The new balance: the first amount after the leftmost qualifying label,
      or None when there is no such amount. When a later label has an amount
      after it, so has the leftmost label; the search therefore succeeds
      exactly when some label has an amount after it. */
  function FindBalance(s: string): (r: Option<string>)
    ensures r.Some? <==> exists p: nat, q: nat ::
      BalanceLabelAt(s, p) && p + |BalanceLabel| <= q && AmountAt(s, q)
    ensures r.Some? ==> IsAmountToken(r.value)
    ensures r.Some? ==> exists p: nat, q: nat ::
      LeftmostBalanceLabel(s, p) && LeftmostAmountFrom(s, p + |BalanceLabel|, q) &&
      r.value == s[q..AmountEnd(s, q)]
  {
    match BalanceLabelStart(s)
    case None => None
    case Some(p) =>
      match AmountStart(s, p + |BalanceLabel|)
      case None =>
        assert forall p': nat, q: nat :: BalanceLabelAt(s, p') && p' + |BalanceLabel| <= q ==> !AmountAt(s, q) by {
          forall p': nat, q: nat | BalanceLabelAt(s, p') && p' + |BalanceLabel| <= q
            ensures !AmountAt(s, q)
          {
            assert p <= p';
            if q < |s| { assert !AmountAt(s, q); }
          }
        }
        None
      case Some(q) =>
        AmountIsToken(s, q);
        Some(s[q..AmountEnd(s, q)])
  }

  /** Given the leftmost label and the first amount after it, the balance is that amount. */
  lemma BalanceIs(s: string, p: nat, q: nat)
    requires LeftmostBalanceLabel(s, p)
    requires LeftmostAmountFrom(s, p + |BalanceLabel|, q)
    ensures FindBalance(s) == Some(s[q..AmountEnd(s, q)])
  {
    assert BalanceLabelStart(s) == Some(p);
    assert AmountStart(s, p + |BalanceLabel|) == Some(q);
  }

  // ----- statement closing date and payment due date -----

  predicate IsNotNewline(c: char) { c != '\n' }

  /** The end of the line that contains position `i`: the next `\n`, or the end of the text. */
  function LineEnd(s: string, i: nat): (e: nat)
    requires i <= |s|
    ensures i <= e <= |s|
    ensures forall k :: i <= k < e ==> s[k] != '\n'
    ensures e == |s| || s[e] == '\n'
  {
    SkipWhile(s, i, IsNotNewline)
  }

  /** `<label>[^\n]*\n(.+)` matches at `p`: the label, the rest of its line,
      a line feed, and a next line holding at least one character. */
  predicate NextLineMatchAt(s: string, marker: string, p: nat) {
    LabelAt(s, marker, p) &&
    var e := LineEnd(s, p + |marker|);
    e + 1 < |s| && s[e + 1] != '\n'
  }

  predicate LeftmostNextLineMatch(s: string, marker: string, p: nat) {
    NextLineMatchAt(s, marker, p) && forall j: nat :: j < p ==> !NextLineMatchAt(s, marker, j)
  }

  /** What `(.+)` captures: the whole line after the label's line. */
  function NextLine(s: string, marker: string, p: nat): (line: string)
    requires NextLineMatchAt(s, marker, p)
    ensures line != [] && '\n' !in line
    ensures var e := LineEnd(s, p + |marker|);
            s[e] == '\n' && line == s[e + 1..LineEnd(s, e + 1)]
  {
    var e := LineEnd(s, p + |marker|);
    s[e + 1..LineEnd(s, e + 1)]
  }

  function NextLineMatchStart(s: string, marker: string): (r: Option<nat>)
    ensures r.Some? ==> LeftmostNextLineMatch(s, marker, r.value)
    ensures r.None? ==> forall j: nat :: j < |s| ==> !NextLineMatchAt(s, marker, j)
  {
    var atMatch := (p: nat) => NextLineMatchAt(s, marker, p);
    assert forall j: nat :: atMatch(j) == NextLineMatchAt(s, marker, j);
    FirstFrom(atMatch, 0, |s|)
  }

  /** A labelled date: the line after the line of the leftmost label
      occurrence whose next line is non-empty, stripped; None when no
      occurrence has a non-empty next line. */
  function FindLabelledLine(s: string, marker: string): (r: Option<string>)
    ensures r.Some? <==> exists p: nat :: NextLineMatchAt(s, marker, p)
    ensures r.Some? ==> '\n' !in r.value
    ensures r.Some? ==> exists p: nat ::
      LeftmostNextLineMatch(s, marker, p) && r.value == Strip(NextLine(s, marker, p))
  {
    match NextLineMatchStart(s, marker)
    case None => None
    case Some(p) => Some(Strip(NextLine(s, marker, p)))
  }

  /** A label on the last line does not match at that occurrence. */
  lemma LabelOnLastLine(s: string, marker: string, p: nat)
    requires LabelAt(s, marker, p)
    requires forall k :: p + |marker| <= k < |s| ==> s[k] != '\n'
    ensures !NextLineMatchAt(s, marker, p)
  {
    assert LineEnd(s, p + |marker|) == |s|;
  }

  /** A label whose next line is empty does not match at that occurrence. */
  lemma LabelBeforeEmptyLine(s: string, marker: string, p: nat, e: nat)
    requires LabelAt(s, marker, p)
    requires p + |marker| <= e && e + 1 < |s| && s[e] == '\n' && s[e + 1] == '\n'
    requires forall k :: p + |marker| <= k < e ==> s[k] != '\n'
    ensures !NextLineMatchAt(s, marker, p)
  {
    assert LineEnd(s, p + |marker|) == e;
  }

  /** Given the leftmost matching occurrence, the date is its next line, stripped. */
  lemma LabelledLineIs(s: string, marker: string, p: nat)
    requires LeftmostNextLineMatch(s, marker, p)
    ensures FindLabelledLine(s, marker) == Some(Strip(NextLine(s, marker, p)))
  {
    assert NextLineMatchStart(s, marker) == Some(p);
  }

  /** `find_parameters`: the three searches, each independent of the others. */
  function FindParameters(text: string): (r: Extracted)
    ensures r.balance.Some? ==> IsAmountToken(r.balance.value)
    ensures r.closing.Some? ==> '\n' !in r.closing.value
    ensures r.due.Some? ==> '\n' !in r.due.value
    ensures r.closing.Some? <==> exists p: nat :: NextLineMatchAt(text, ClosingLabel, p)
    ensures r.due.Some? <==> exists p: nat :: NextLineMatchAt(text, DueLabel, p)
  {
    Extracted(FindBalance(text), FindLabelledLine(text, ClosingLabel), FindLabelledLine(text, DueLabel))
  }

  // ----- examples of matched text -----

  /** An amount token at `q` is what `AmountAt` matches there. */
  lemma AmountTokenAt(s: string, q: nat, a: string)
    requires IsAmountToken(a) && q + |a| <= |s| && s[q..q + |a|] == a
    ensures AmountAt(s, q) && AmountEnd(s, q) == q + |a|
  {
    var e := q + |a| - 3;
    forall k | q + 1 <= k < e ensures IsAmountChar(s[k]) {
      assert s[k] == a[k - q];
    }
    assert s[e] == a[|a| - 3];
    SkipWhileIs(s, q + 1, IsAmountChar, e);
    assert s[e + 1] == a[|a| - 2] && s[e + 2] == a[|a| - 1];
  }

  /** Text that opens with any case variant of the balance label, then a
      gap holding no `$` (and starting with a non-word character, for `\b`),
      then an amount token, yields that amount whatever follows it: so
      "New Balance: $1,234.567" yields "$1,234.56". */
  lemma BalanceAfterLabel(lbl: string, gap: string, a: string, tail: string)
    requires LabelAt(lbl, BalanceLabel, 0) && |lbl| == |BalanceLabel|
    requires gap == [] || !IsWordChar(gap[0])
    requires forall k :: 0 <= k < |gap| ==> gap[k] != '$'
    requires IsAmountToken(a)
    ensures FindBalance(lbl + gap + a + tail) == Some(a)
  {
    var s := lbl + gap + a + tail;
    var n := |BalanceLabel|;
    var q := n + |gap|;
    assert s[q..q + |a|] == a;
    AmountTokenAt(s, q, a);
    assert BalanceLabelAt(s, 0) by {
      forall k | 0 <= k < n ensures s[k] == lbl[k] { }
      if gap == [] { assert s[n] == a[0]; } else { assert s[n] == gap[0]; }
    }
    forall j: nat | n <= j < q ensures !AmountAt(s, j) {
      assert s[j] == gap[j - n];
    }
    BalanceIs(s, 0, q);
  }

  lemma CapitalisedBalanceLabel()
    ensures LabelAt("New Balance", BalanceLabel, 0)
  {
  }

  lemma SampleAmountToken()
    ensures IsAmountToken("$1,234.56")
  {
  }

  lemma SampleBalanceText()
    ensures "New Balance" + ": " + "$1,234.56" + "7" == "New Balance: $1,234.567"
  {
  }

  /** An extra digit after the two decimals is not part of the amount. */
  lemma BalanceStopsAtTwoDecimals()
    ensures FindBalance("New Balance: $1,234.567") == Some("$1,234.56")
  {
    CapitalisedBalanceLabel();
    SampleAmountToken();
    SampleBalanceText();
    BalanceAfterLabel("New Balance", ": ", "$1,234.56", "7");
  }

  /** A line that runs from `i` to `e` ends at `e`. */
  lemma LineEndIs(s: string, i: nat, e: nat)
    requires i <= e <= |s|
    requires forall k :: i <= k < e ==> s[k] != '\n'
    requires e == |s| || s[e] == '\n'
    ensures LineEnd(s, i) == e
  {
    SkipWhileIs(s, i, IsNotNewline, e);
  }

  /** The pieces of a date text in place: the label, the rest of its line,
      the line feed, the next line, and what follows. */
  lemma DateTextShape(lbl: string, rest: string, line: string, tail: string)
    requires '\n' !in rest && '\n' !in line
    requires tail == [] || tail[0] == '\n'
    ensures var s := lbl + rest + "\n" + line + tail;
      var e := |lbl| + |rest|;
      var f := e + 1 + |line|;
      && f <= |s| && s[..|lbl|] == lbl && s[e] == '\n'
      && (forall k :: |lbl| <= k < e ==> s[k] != '\n')
      && (forall k :: e + 1 <= k < f ==> s[k] != '\n')
      && (f == |s| || s[f] == '\n')
      && s[e + 1..f] == line
  {
    var s := lbl + rest + "\n" + line + tail;
    var e := |lbl| + |rest|;
    var f := e + 1 + |line|;
    forall k | |lbl| <= k < e ensures s[k] != '\n' {
      assert s[k] == rest[k - |lbl|];
    }
    forall k | e + 1 <= k < f ensures s[k] != '\n' {
      assert s[k] == line[k - e - 1];
    }
    if tail != [] { assert s[f] == tail[0]; }
    assert s[e + 1..f] == line;
  }

  /** Text that opens with any case variant of a date label, then the rest
      of that line, then a non-empty next line, yields that next line
      stripped, whatever follows it. */
  lemma DateAfterLabel(marker: string, lbl: string, rest: string, line: string, tail: string)
    requires LabelAt(lbl, marker, 0) && |lbl| == |marker|
    requires '\n' !in rest && '\n' !in line && line != []
    requires tail == [] || tail[0] == '\n'
    ensures FindLabelledLine(lbl + rest + "\n" + line + tail, marker) == Some(Strip(line))
  {
    var s := lbl + rest + "\n" + line + tail;
    var e := |marker| + |rest|;
    var f := e + 1 + |line|;
    DateTextShape(lbl, rest, line, tail);
    assert LabelAt(s, marker, 0) by {
      forall k | 0 <= k < |marker| ensures s[k] == lbl[k] {
        assert s[..|lbl|][k] == lbl[k];
      }
    }
    LineEndIs(s, |marker|, e);
    LineEndIs(s, e + 1, f);
    assert s[e + 1] == line[0];
    LabelledLineIs(s, marker, 0);
  }

  lemma CapitalisedClosingLabel()
    ensures LabelAt("Statement Closing Date", ClosingLabel, 0)
  {
  }

  lemma SampleClosingText()
    ensures "Statement Closing Date" + "" + "\n" + "03/15/2024" + "" == "Statement Closing Date\n03/15/2024"
    ensures Strip("03/15/2024") == "03/15/2024"
  {
    assert SkipWhile("03/15/2024", 0, IsSpace) == 0;
    assert StripEnd("03/15/2024") == "03/15/2024";
  }

  /** The closing date is the line after the label. */
  lemma ClosingDateOnNextLine()
    ensures FindLabelledLine("Statement Closing Date\n03/15/2024", ClosingLabel) == Some("03/15/2024")
  {
    CapitalisedClosingLabel();
    SampleClosingText();
    DateAfterLabel(ClosingLabel, "Statement Closing Date", "", "03/15/2024", "");
  }

  /** When every occurrence of a label sits on the last line, there is no date. */
  lemma LabelOnlyOnLastLine(s: string, marker: string)
    requires forall p: nat :: LabelAt(s, marker, p) ==> forall k :: p + |marker| <= k < |s| ==> s[k] != '\n'
    ensures FindLabelledLine(s, marker) == None
  {
    forall p: nat | LabelAt(s, marker, p) ensures !NextLineMatchAt(s, marker, p) {
      LabelOnLastLine(s, marker, p);
    }
  }
}
