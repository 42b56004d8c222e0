/**
 * `parseBankStatement`: the statement text is cut into lines, lines without
 * a date are dropped, and every dated line becomes a transaction whose fields
 * are picked by position among its white-space separated tokens.
 */
module StatementParser {
  import opened Wrappers
  import opened Text
  import opened Numerals
  import opened Amounts
  import opened Dates

  /** One parsed statement row (the source's `Date`, `Voucher Narration`, `Deposits`, `Withdrawals`). */
  datatype Transaction = Transaction(date: string, narration: string, deposit: Decimal, withdrawal: Decimal)

  /** What a single line gives: nothing, a transaction, or the crash of a dated line with too few tokens. */
  datatype LineOutcome = Skipped | Unreadable | Parsed(t: Transaction)

  /**
   * A dated line with fewer than three tokens makes `parts[parts.length - 3]`
   * undefined; calling `.replace` on it throws, which abandons the whole parse.
   * `line` is the index of that line.
   */
  datatype ParseError = TooFewTokens(line: nat)

  /** `parts.slice(1, parts.length - 3)`: the tokens between the first and the third from last. */
  function NarrationTokens(parts: seq<string>): (words: seq<string>)
    requires |parts| >= 3
    ensures |words| == if |parts| > 4 then |parts| - 4 else 0
  {
    if |parts| - 3 > 1 then parts[1..|parts| - 3] else []
  }

  /** The body of the `forEach` in `parseBankStatement`, for one line. */
  function ParseLine(line: string): LineOutcome {
    match MatchDate(line)
    case None => Skipped
    case Some(date) =>
      var parts := SplitWs(line);
      if |parts| < 3 then Unreadable
      else
        var n := |parts|;
        Parsed(Transaction(date, JoinWith(NarrationTokens(parts), " "), AmountOf(parts[n - 3]), AmountOf(parts[n - 2])))
  }

  /**
   * A line gives nothing exactly when it holds no date, fails exactly when it
   * holds one but has fewer than three tokens, and otherwise gives a
   * transaction dated with the first date found in it.
   */
  lemma ParseLineCases(line: string)
    ensures ParseLine(line).Skipped? <==> !HasDate(line)
    ensures ParseLine(line).Unreadable? <==> HasDate(line) && |SplitWs(line)| < 3
    ensures ParseLine(line).Parsed? ==> MatchDate(line) == Some(ParseLine(line).t.date) && IsDateShape(ParseLine(line).t.date)
  {
    MatchDateSpec(line);
  }

  /**
   * The fields are picked by position, whatever the first token is: for a
   * dated line made of a first token (a date, a serial number, a reference,
   * or the empty token that leading white space gives), the narration words,
   * a deposit, a withdrawal and a balance, separated by any runs of white
   * space, the record is dated with the first date in the line, its narration
   * is the words joined by single spaces, and the last column is ignored.
   */
  lemma ParseLineByPosition(first: string, words: seq<string>, deposit: string, withdrawal: string, balance: string,
                            gaps: seq<string>)
    requires SpaceFree(first)
    requires forall k :: 0 <= k < |words| ==> SpaceFree(words[k]) && words[k] != ""
    requires SpaceFree(deposit) && deposit != ""
    requires SpaceFree(withdrawal) && withdrawal != ""
    requires SpaceFree(balance)
    requires |gaps| == |words| + 3 && forall k :: 0 <= k < |gaps| ==> IsSpaceRun(gaps[k])
    requires HasDate(Interleave([first] + words + [deposit, withdrawal, balance], gaps))
    ensures var line := Interleave([first] + words + [deposit, withdrawal, balance], gaps);
            && MatchDate(line).Some?
            && ParseLine(line)
               == Parsed(Transaction(MatchDate(line).value, JoinWith(words, " "), AmountOf(deposit), AmountOf(withdrawal)))
  {
    var parts := [first] + words + [deposit, withdrawal, balance];
    var line := Interleave(parts, gaps);
    ColumnsAreTokens(first, words, deposit, withdrawal, balance);
    SplitWsInterleave(parts, gaps);
    MatchDateSpec(line);
    assert SplitWs(line) == parts;
    var n := |parts|;
    assert parts[n - 3] == deposit && parts[n - 2] == withdrawal;
    assert NarrationTokens(parts) == words;
  }

  /**
   * A dated line of exactly three tokens has no narration: its first token,
   * which may be empty when the line starts with white space, is read as the
   * deposit and the second as the withdrawal.
   */
  lemma ParseLineThreeTokens(deposit: string, withdrawal: string, balance: string, gaps: seq<string>)
    requires SpaceFree(deposit)
    requires SpaceFree(withdrawal) && withdrawal != ""
    requires SpaceFree(balance)
    requires |gaps| == 2 && IsSpaceRun(gaps[0]) && IsSpaceRun(gaps[1])
    requires HasDate(Interleave([deposit, withdrawal, balance], gaps))
    ensures var line := Interleave([deposit, withdrawal, balance], gaps);
            && MatchDate(line).Some?
            && ParseLine(line) == Parsed(Transaction(MatchDate(line).value, "", AmountOf(deposit), AmountOf(withdrawal)))
  {
    var parts := [deposit, withdrawal, balance];
    var line := Interleave(parts, gaps);
    assert parts[0] == deposit && parts[1] == withdrawal && parts[2] == balance;
    SplitWsInterleave(parts, gaps);
    MatchDateSpec(line);
    assert SplitWs(line) == parts;
    assert JoinWith(NarrationTokens(parts), " ") == "";
  }

  /**
   * The common layout, where the line starts with its date: the record is
   * dated with that very token.
   */
  lemma ParseLineColumns(date: string, words: seq<string>, deposit: string, withdrawal: string, balance: string,
                         gaps: seq<string>)
    requires IsDateShape(date)
    requires forall k :: 0 <= k < |words| ==> SpaceFree(words[k]) && words[k] != ""
    requires SpaceFree(deposit) && deposit != ""
    requires SpaceFree(withdrawal) && withdrawal != ""
    requires SpaceFree(balance)
    requires |gaps| == |words| + 3 && forall k :: 0 <= k < |gaps| ==> IsSpaceRun(gaps[k])
    ensures ParseLine(Interleave([date] + words + [deposit, withdrawal, balance], gaps))
         == Parsed(Transaction(date, JoinWith(words, " "), AmountOf(deposit), AmountOf(withdrawal)))
  {
    var parts := [date] + words + [deposit, withdrawal, balance];
    var line := Interleave(parts, gaps);
    DateIsSpaceFree(date);
    LineStartsWithDate(parts, gaps, date);
    MatchDateSpec(line);
    ParseLineByPosition(date, words, deposit, withdrawal, balance, gaps);
  }

  /**
   * A line with the date, a two-word description, one amount and a balance:
   * the last token is taken as the balance, so the amount lands in the
   * withdrawal column and the second description word is read as the deposit
   * (worth zero, as it is not a number).
   */
  lemma TwoWordLineExample(line: string)
    requires line == JoinWith(["01-02-2023", "Grocery", "Store", "1,200.50", "0.00"], " ")
    ensures ParseLine(line) == Parsed(Transaction("01-02-2023", "Grocery", Zero, Decimal(120050, 2)))
  {
    var date, word, deposit, withdrawal, balance := "01-02-2023", "Grocery", "Store", "1,200.50", "0.00";
    ExampleColumns(date, word, deposit, withdrawal, balance);
    var parts := [date] + [word] + [deposit, withdrawal, balance];
    JoinWithInterleave(parts, " ");
    assert IsSpaceRun(" ");
    ParseLineColumns(date, [word], deposit, withdrawal, balance, seq(4, _ => " "));
    WordAmountExample(deposit);
    GroupedAmountExample(withdrawal);
  }

  /** The tokens of the example line are a date and four white-space-free tokens. */
  lemma ExampleColumns(date: string, word: string, deposit: string, withdrawal: string, balance: string)
    requires date == "01-02-2023" && word == "Grocery" && deposit == "Store"
    requires withdrawal == "1,200.50" && balance == "0.00"
    ensures IsDateShape(date)
    ensures SpaceFree(word) && word != "" && SpaceFree(deposit) && deposit != ""
    ensures SpaceFree(withdrawal) && withdrawal != "" && SpaceFree(balance)
    ensures [date] + [word] + [deposit, withdrawal, balance] == ["01-02-2023", "Grocery", "Store", "1,200.50", "0.00"]
    ensures JoinWith([word], " ") == word
  {
  }

  /** The columns of such a line are its white-space tokens. */
  lemma ColumnsAreTokens(first: string, words: seq<string>, deposit: string, withdrawal: string, balance: string)
    requires SpaceFree(first)
    requires forall k :: 0 <= k < |words| ==> SpaceFree(words[k]) && words[k] != ""
    requires SpaceFree(deposit) && deposit != ""
    requires SpaceFree(withdrawal) && withdrawal != ""
    requires SpaceFree(balance)
    ensures var parts := [first] + words + [deposit, withdrawal, balance];
            forall k :: 0 <= k < |parts| ==> SpaceFree(parts[k]) && (0 < k < |parts| - 1 ==> parts[k] != "")
  {
    var parts := [first] + words + [deposit, withdrawal, balance];
    var n := |parts|;
    forall k | 0 <= k < n ensures SpaceFree(parts[k]) && (0 < k < n - 1 ==> parts[k] != "") {
      if k == 0 {
        assert parts[k] == first;
      } else if k <= |words| {
        assert parts[k] == words[k - 1];
      } else if k == n - 3 {
        assert parts[k] == deposit;
      } else if k == n - 2 {
        assert parts[k] == withdrawal;
      } else {
        assert parts[k] == balance;
      }
    }
  }

  /** A line whose first token is a date matches that date. */
  lemma LineStartsWithDate(parts: seq<string>, gaps: seq<string>, date: string)
    requires |parts| >= 1 && |gaps| == |parts| - 1 && parts[0] == date && IsDateShape(date)
    ensures MatchDate(Interleave(parts, gaps)) == Some(date)
  {
    var line := Interleave(parts, gaps);
    InterleaveFirst(parts, gaps);
    assert line[..10] == date;
    assert forall k :: 0 <= k < 10 ==> line[k] == date[k];
    assert IsDateAt(line, 0);
  }

  /** The outcome of every line, in line order. */
  function Outcomes(lines: seq<string>): (os: seq<LineOutcome>)
    ensures |os| == |lines|
  {
    if |lines| == 0 then []
    else Outcomes(lines[..|lines| - 1]) + [ParseLine(lines[|lines| - 1])]
  }

  /** The outcome at position `i` is that of line `i`. */
  lemma {:induction false} OutcomesAt(lines: seq<string>, i: nat)
    requires i < |lines|
    ensures Outcomes(lines)[i] == ParseLine(lines[i])
  {
    if i < |lines| - 1 {
      OutcomesAt(lines[..|lines| - 1], i);
    }
  }

  /** The outcomes of a prefix of the lines are a prefix of the outcomes. */
  lemma {:induction false} OutcomesPrefix(lines: seq<string>, k: nat)
    requires k <= |lines|
    ensures Outcomes(lines[..k]) == Outcomes(lines)[..k]
    decreases |lines|
  {
    if k < |lines| {
      var init := lines[..|lines| - 1];
      assert init[..k] == lines[..k];
      OutcomesPrefix(init, k);
    } else {
      assert lines[..k] == lines;
    }
  }

  /**
   * Gathering the outcomes as the forEach does: transactions in line order,
   * or the error of the first unreadable line, after which nothing more is read.
   */
  function Collect(os: seq<LineOutcome>): Result<seq<Transaction>, ParseError> {
    if |os| == 0 then Success([])
    else
      match Collect(os[..|os| - 1])
      case Failure(e) => Failure(e)
      case Success(ts) =>
        match os[|os| - 1]
        case Skipped => Success(ts)
        case Unreadable => Failure(TooFewTokens(|os| - 1))
        case Parsed(t) => Success(ts + [t])
  }

  /** The forEach over all lines, as a specification. */
  function ParseLines(lines: seq<string>): Result<seq<Transaction>, ParseError> {
    Collect(Outcomes(lines))
  }

  /** The positions of the outcomes that are not skipped, in increasing order. */
  function Kept(os: seq<LineOutcome>): (ks: seq<nat>)
    ensures forall j :: 0 <= j < |ks| ==> ks[j] < |os| && !os[ks[j]].Skipped?
  {
    if |os| == 0 then []
    else
      var init := os[..|os| - 1];
      Kept(init) + (if os[|os| - 1].Skipped? then [] else [|os| - 1])
  }

  /** The kept positions increase, and every outcome that is not skipped is kept. */
  lemma {:induction false} KeptSpec(os: seq<LineOutcome>)
    ensures forall j, j' :: 0 <= j < j' < |Kept(os)| ==> Kept(os)[j] < Kept(os)[j']
    ensures forall i :: 0 <= i < |os| && !os[i].Skipped? ==> i in Kept(os)
  {
    if |os| > 0 {
      var init := os[..|os| - 1];
      KeptSpec(init);
      var ks := Kept(os);
      var tail := if os[|os| - 1].Skipped? then [] else [|os| - 1];
      assert ks == Kept(init) + tail;
      forall i | 0 <= i < |os| && !os[i].Skipped? ensures i in ks {
        if i < |init| {
          assert init[i] == os[i];
          var j :| 0 <= j < |Kept(init)| && Kept(init)[j] == i;
          assert ks[j] == i;
        } else {
          assert ks[|ks| - 1] == i;
        }
      }
    }
  }

  /**
   * Gathering is a filter-map: it fails exactly when some outcome is
   * unreadable, naming the first one; otherwise it yields the transaction of
   * every kept outcome, in order.
   */
  lemma {:induction false} CollectFilterMap(os: seq<LineOutcome>)
    ensures Collect(os).Success? <==> forall i :: 0 <= i < |os| ==> !os[i].Unreadable?
    ensures Collect(os).Failure? ==>
              var i := Collect(os).error.line;
              i < |os| && os[i].Unreadable? && forall j :: 0 <= j < i ==> !os[j].Unreadable?
    ensures Collect(os).Success? ==>
              var ts := Collect(os).value;
              |ts| == |Kept(os)| && forall j :: 0 <= j < |ts| ==> os[Kept(os)[j]] == Parsed(ts[j])
  {
    if |os| > 0 {
      var init := os[..|os| - 1];
      CollectFilterMap(init);
      assert forall i :: 0 <= i < |init| ==> os[i] == init[i];
      if Collect(init).Success? {
        var ts := Collect(init).value;
        var o := os[|os| - 1];
        if o.Parsed? {
          var ts' := ts + [o.t];
          assert Kept(os) == Kept(init) + [|os| - 1];
          forall j | 0 <= j < |ts'| ensures os[Kept(os)[j]] == Parsed(ts'[j]) {
            if j < |ts| {
              assert Kept(os)[j] == Kept(init)[j];
            }
          }
        } else if o.Skipped? {
          assert Kept(os) == Kept(init);
        }
      }
    }
  }

  /** Once a prefix of the outcomes fails, the whole gathering fails with the same error. */
  lemma {:induction false} CollectFailureSticks(os: seq<LineOutcome>, k: nat)
    requires k <= |os|
    requires Collect(os[..k]).Failure?
    ensures Collect(os) == Collect(os[..k])
    decreases |os| - k
  {
    if k < |os| {
      var prefix := os[..k + 1];
      assert prefix[..k] == os[..k];
      CollectFailureSticks(os, k + 1);
    } else {
      assert os[..k] == os;
    }
  }

  /** A line the forEach cannot read: it has a date but fewer than three tokens. */
  predicate TooShort(line: string) {
    HasDate(line) && |SplitWs(line)| < 3
  }

  /**
   * The parse of the statement lines: it fails exactly when some dated line
   * has fewer than three tokens, naming the first such line; otherwise the
   * transactions correspond one to one, in order, to the lines that contain a
   * date (the positions `Kept`), each the parse of its line.
   */
  lemma ParseLinesFilterMap(lines: seq<string>)
    ensures ParseLines(lines).Success? <==> forall i :: 0 <= i < |lines| ==> !TooShort(lines[i])
    ensures ParseLines(lines).Failure? ==>
              var i := ParseLines(lines).error.line;
              i < |lines| && TooShort(lines[i]) && forall j :: 0 <= j < i ==> !TooShort(lines[j])
    ensures ParseLines(lines).Success? ==>
              var ts, ks := ParseLines(lines).value, Kept(Outcomes(lines));
              |ts| == |ks|
              && (forall j :: 0 <= j < |ks| ==> ks[j] < |lines| && ParseLine(lines[ks[j]]) == Parsed(ts[j]))
              && (forall j, j' :: 0 <= j < j' < |ks| ==> ks[j] < ks[j'])
              && (forall i :: 0 <= i < |lines| ==> (i in ks <==> HasDate(lines[i])))
  {
    var os := Outcomes(lines);
    CollectFilterMap(os);
    KeptSpec(os);
    forall i | 0 <= i < |lines|
      ensures os[i] == ParseLine(lines[i])
      ensures os[i].Skipped? <==> !HasDate(lines[i])
      ensures os[i].Unreadable? <==> TooShort(lines[i])
    {
      OutcomesAt(lines, i);
      ParseLineCases(lines[i]);
    }
  }

  /**
   * `parseBankStatement(text)`: the forEach loop that pushes one record per
   * dated line, or stops with the error the first unreadable dated line raises.
   */
  method ParseBankStatement(text: string) returns (r: Result<seq<Transaction>, ParseError>)
    ensures r == ParseLines(SplitOn(text, '\n'))
  {
    var lines := SplitOn(text, '\n');
    var transactions: seq<Transaction> := [];
    var i := 0;
    while i < |lines|
      invariant 0 <= i <= |lines|
      invariant ParseLines(lines[..i]) == Success(transactions)
    {
      var line := lines[i];
      ghost var prefix := lines[..i + 1];
      assert prefix[..i] == lines[..i] && prefix[i] == line;
      ghost var os := Outcomes(prefix);
      assert os[..i] == Outcomes(lines[..i]) && os[i] == ParseLine(line);
      var dateMatch := MatchDate(line);
      if dateMatch.Some? {
        var parts := SplitWs(line);
        if |parts| < 3 {
          OutcomesPrefix(lines, i + 1);
          CollectFailureSticks(Outcomes(lines), i + 1);
          return Failure(TooFewTokens(i));
        }
        var deposits := AmountOf(parts[|parts| - 3]);
        var withdrawals := AmountOf(parts[|parts| - 2]);
        var narration := JoinWith(NarrationTokens(parts), " ");
        transactions := transactions + [Transaction(dateMatch.value, narration, deposits, withdrawals)];
      }
      i := i + 1;
    }
    assert lines[..i] == lines;
    return Success(transactions);
  }
}
