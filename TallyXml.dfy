/**
 * `generateTallyXML` / `createXml`: every statement row becomes a Tally
 * `TALLYMESSAGE` holding one double-entry accounting voucher, and the
 * messages are wrapped in a fixed import-request envelope.
 */
module TallyXml {
  import opened Wrappers
  import opened Numerals
  import opened Amounts
  import opened Dates
  import opened StatementParser
  import opened Xml

  datatype VoucherType = Payment | Receipt

  /**
   * `row['Withdrawals'] ? 'Payment' : 'Receipt'`: a number is truthy unless it
   * is zero (NaN never reaches here, the parser turns it into zero).
   */
  function VoucherTypeOf(t: Transaction): VoucherType {
    if IsZero(t.withdrawal) then Receipt else Payment
  }

  function TypeName(v: VoucherType): string {
    match v
    case Payment => "Payment"
    case Receipt => "Receipt"
  }

  function YesNo(b: bool): string {
    if b then "Yes" else "No"
  }

  /** One `ALLLEDGERENTRIES.LIST`: the ledger, whether it is deemed positive, and the amount text. */
  function LedgerEntry(ledger: string, deemedPositive: bool, amount: string): Node {
    Element("ALLLEDGERENTRIES.LIST", [], [
      TextElement("LEDGERNAME", ledger),
      TextElement("ISDEEMEDPOSITIVE", YesNo(deemedPositive)),
      TextElement("AMOUNT", amount)
    ])
  }

  /** The texts a voucher is assembled from. */
  datatype VoucherTexts = VoucherTexts(
    voucherType: string,
    date: string,
    number: string,
    narration: string,
    contraAmount: string,
    bankAmount: string)

  /**
   * The texts `createXml` computes for the row `t` at position `index`: the
   * type name, the rearranged date, the number `index + 1`, the narration, and
   * the amount of each ledger entry (the deposit for a receipt, the withdrawal
   * for a payment, with a minus sign written in front on one side).
   */
  function TextsOf(t: Transaction, index: nat): VoucherTexts {
    var voucherType := TypeName(VoucherTypeOf(t));
    var receipt := voucherType == "Receipt";
    VoucherTexts(voucherType, ParseDate(t.date), NatToString(index + 1), t.narration,
      if receipt then NumberToString(t.deposit) else "-" + NumberToString(t.withdrawal),
      if receipt then "-" + NumberToString(t.deposit) else NumberToString(t.withdrawal))
  }

  /**
   * The `VOUCHER` element: its attributes, its fields, and two ledger
   * entries, first the contra ledger and then the bank. The contra ledger is
   * deemed positive unless the voucher is a receipt, the bank exactly when it
   * is one.
   */
  function VoucherNode(x: VoucherTexts, bankName: string, ledgerName: string): Node {
    var receipt := x.voucherType == "Receipt";
    Element("VOUCHER",
      [Attribute("VCHTYPE", x.voucherType), Attribute("ACTION", "Create"), Attribute("OBJVIEW", "Accounting Voucher View")],
      [
        TextElement("DATE", x.date),
        TextElement("VOUCHERTYPENAME", x.voucherType),
        TextElement("VOUCHERNUMBER", x.number),
        TextElement("NARRATION", x.narration),
        LedgerEntry(ledgerName, !receipt, x.contraAmount),
        LedgerEntry(bankName, receipt, x.bankAmount)
      ])
  }

  /** The `VOUCHER` element for row `t` at position `index` of the data. */
  function Voucher(t: Transaction, index: nat, bankName: string, ledgerName: string): Node {
    VoucherNode(TextsOf(t, index), bankName, ledgerName)
  }

  /** The body of the `forEach` in `createXml`, for one row. */
  function TallyMessage(t: Transaction, index: nat, bankName: string, ledgerName: string): Node {
    Element("TALLYMESSAGE", [], [Voucher(t, index, bankName, ledgerName)])
  }

  /** `f` applied to each element of `xs` together with its index, in order. */
  function Numbered<T, U>(xs: seq<T>, f: (T, nat) -> U): (ys: seq<U>)
    ensures |ys| == |xs|
  {
    if |xs| == 0 then []
    else
      var last := |xs| - 1;
      Numbered(xs[..last], f) + [f(xs[last], last)]
  }

  /** The element at position `i` is `f` of the `i`-th input and `i`. */
  lemma {:induction false} NumberedAt<T, U>(xs: seq<T>, f: (T, nat) -> U, i: nat)
    requires i < |xs|
    ensures Numbered(xs, f)[i] == f(xs[i], i)
  {
    var last := |xs| - 1;
    if i < last {
      NumberedAt(xs[..last], f, i);
    }
  }

  /** The messages for all rows, in order: the specification of the loop in `createXml`. */
  function Messages(data: seq<Transaction>, bankName: string, ledgerName: string): (ms: seq<Node>)
    ensures |ms| == |data|
  {
    Numbered(data, (t, index) => TallyMessage(t, index, bankName, ledgerName))
  }

  /** The message at position `i` is the one for row `i`, numbered from its position. */
  lemma MessagesAt(data: seq<Transaction>, bankName: string, ledgerName: string, i: nat)
    requires i < |data|
    ensures Messages(data, bankName, ledgerName)[i] == TallyMessage(data[i], i, bankName, ledgerName)
  {
    NumberedAt(data, (t, index) => TallyMessage(t, index, bankName, ledgerName), i);
  }

  /** The fixed import request around the messages. */
  function Envelope(messages: seq<Node>): Node {
    Element("ENVELOPE", [], [
      Element("HEADER", [], [TextElement("TALLYREQUEST", "Import Data")]),
      Element("BODY", [], [
        Element("IMPORTDATA", [], [
          Element("REQUESTDESC", [], [
            TextElement("REPORTNAME", "Vouchers"),
            Element("STATICVARIABLES", [], [TextElement("SVCURRENTCOMPANY", "Your Company Name")])
          ]),
          Element("REQUESTDATA", [], messages)
        ])
      ])
    ])
  }

  const RequestDataPath: seq<string> := ["BODY", "IMPORTDATA", "REQUESTDATA"]

  /** The attributes of a voucher: its type, the create action and the accounting view. */
  lemma VoucherNodeAttributes(x: VoucherTexts, bankName: string, ledgerName: string)
    ensures var v := VoucherNode(x, bankName, ledgerName);
            && GetAttribute(v, "VCHTYPE") == Some(x.voucherType)
            && GetAttribute(v, "ACTION") == Some("Create")
            && GetAttribute(v, "OBJVIEW") == Some("Accounting Voucher View")
  {
    var attributes := VoucherNode(x, bankName, ledgerName).attributes;
    AttributeAt(attributes, "VCHTYPE", 0);
    AttributeAt(attributes, "ACTION", 1);
    AttributeAt(attributes, "OBJVIEW", 2);
  }

  /** The fields of a voucher read back as the texts it was built from. */
  lemma VoucherNodeFields(x: VoucherTexts, bankName: string, ledgerName: string)
    ensures var v := VoucherNode(x, bankName, ledgerName);
            && ChildText(v, "DATE") == Some(x.date)
            && ChildText(v, "VOUCHERTYPENAME") == Some(x.voucherType)
            && ChildText(v, "VOUCHERNUMBER") == Some(x.number)
            && ChildText(v, "NARRATION") == Some(x.narration)
  {
    var cs := VoucherNode(x, bankName, ledgerName).children;
    FirstNamedAt(cs, "DATE", 0);
    FirstNamedAt(cs, "VOUCHERTYPENAME", 1);
    FirstNamedAt(cs, "VOUCHERNUMBER", 2);
    FirstNamedAt(cs, "NARRATION", 3);
    TextElementContent("DATE", x.date);
    TextElementContent("VOUCHERTYPENAME", x.voucherType);
    TextElementContent("VOUCHERNUMBER", x.number);
    TextElementContent("NARRATION", x.narration);
  }

  /**
   * A voucher has exactly two ledger entries: the contra ledger, then the
   * bank, with opposite deemed-positive flags, each carrying its amount text.
   */
  lemma VoucherNodeEntries(x: VoucherTexts, bankName: string, ledgerName: string)
    ensures var es := ChildrenNamed(VoucherNode(x, bankName, ledgerName), "ALLLEDGERENTRIES.LIST");
            var receipt := x.voucherType == "Receipt";
            && |es| == 2
            && ChildText(es[0], "LEDGERNAME") == Some(ledgerName)
            && ChildText(es[1], "LEDGERNAME") == Some(bankName)
            && ChildText(es[0], "ISDEEMEDPOSITIVE") == Some(YesNo(!receipt))
            && ChildText(es[1], "ISDEEMEDPOSITIVE") == Some(YesNo(receipt))
            && ChildText(es[0], "AMOUNT") == Some(x.contraAmount)
            && ChildText(es[1], "AMOUNT") == Some(x.bankAmount)
  {
    var cs := VoucherNode(x, bankName, ledgerName).children;
    var head, entries := cs[..4], cs[4..];
    assert cs == head + entries;
    NamedAmongAppend(head, entries, "ALLLEDGERENTRIES.LIST");
    NamedAmongNone(head, "ALLLEDGERENTRIES.LIST");
    NamedAmongAll(entries, "ALLLEDGERENTRIES.LIST");
    var receipt := x.voucherType == "Receipt";
    LedgerEntryLayout(ledgerName, !receipt, x.contraAmount);
    LedgerEntryLayout(bankName, receipt, x.bankAmount);
  }

  /** Where each field of a ledger entry sits among its children. */
  lemma LedgerEntryLayout(ledger: string, deemedPositive: bool, amount: string)
    ensures var e := LedgerEntry(ledger, deemedPositive, amount);
            && ChildText(e, "LEDGERNAME") == Some(ledger)
            && ChildText(e, "ISDEEMEDPOSITIVE") == Some(YesNo(deemedPositive))
            && ChildText(e, "AMOUNT") == Some(amount)
  {
    var e := LedgerEntry(ledger, deemedPositive, amount);
    FirstNamedAt(e.children, "LEDGERNAME", 0);
    FirstNamedAt(e.children, "ISDEEMEDPOSITIVE", 1);
    FirstNamedAt(e.children, "AMOUNT", 2);
    TextElementContent("LEDGERNAME", ledger);
    TextElementContent("ISDEEMEDPOSITIVE", YesNo(deemedPositive));
    TextElementContent("AMOUNT", amount);
  }

  /**
   * The voucher type is Payment exactly when the withdrawal is not zero,
   * whatever the deposit, and Receipt otherwise; the `VCHTYPE` attribute and
   * the `VOUCHERTYPENAME` text always agree.
   */
  lemma VoucherTypeRule(t: Transaction, index: nat, bankName: string, ledgerName: string)
    ensures var v := Voucher(t, index, bankName, ledgerName);
            && GetAttribute(v, "VCHTYPE") == ChildText(v, "VOUCHERTYPENAME")
            && (GetAttribute(v, "VCHTYPE") == Some("Payment") <==> !IsZero(t.withdrawal))
            && (GetAttribute(v, "VCHTYPE") == Some("Receipt") <==> IsZero(t.withdrawal))
            && GetAttribute(v, "ACTION") == Some("Create")
            && GetAttribute(v, "OBJVIEW") == Some("Accounting Voucher View")
  {
    VoucherNodeAttributes(TextsOf(t, index), bankName, ledgerName);
    VoucherNodeFields(TextsOf(t, index), bankName, ledgerName);
  }

  /**
   * The voucher carries the rearranged date of its row (`YYYYMMDD` for a
   * `DD-MM-YYYY` date), the row's narration, and the number `index + 1`.
   */
  lemma VoucherFields(t: Transaction, index: nat, bankName: string, ledgerName: string)
    ensures var v := Voucher(t, index, bankName, ledgerName);
            && ChildText(v, "DATE") == Some(ParseDate(t.date))
            && (IsDateShape(t.date) ==> ChildText(v, "DATE") == Some(t.date[6..10] + t.date[3..5] + t.date[..2]))
            && ChildText(v, "NARRATION") == Some(t.narration)
            && ChildText(v, "VOUCHERNUMBER").Some?
            && AllDigits(ChildText(v, "VOUCHERNUMBER").value)
            && DigitsValue(ChildText(v, "VOUCHERNUMBER").value) == index + 1
  {
    VoucherNodeFields(TextsOf(t, index), bankName, ledgerName);
    NatToStringValue(index + 1);
    if IsDateShape(t.date) {
      ParseDateOfShape(t.date);
    }
  }

  /**
   * A voucher has exactly two ledger entries: the first names the contra
   * ledger, the second the bank, and their deemed-positive flags are opposite
   * ("No" then "Yes" for a receipt, "Yes" then "No" for a payment).
   */
  lemma LedgerEntriesOpposite(t: Transaction, index: nat, bankName: string, ledgerName: string)
    ensures var es := ChildrenNamed(Voucher(t, index, bankName, ledgerName), "ALLLEDGERENTRIES.LIST");
            && |es| == 2
            && ChildText(es[0], "LEDGERNAME") == Some(ledgerName)
            && ChildText(es[1], "LEDGERNAME") == Some(bankName)
            && ChildText(es[0], "ISDEEMEDPOSITIVE").Some? && ChildText(es[1], "ISDEEMEDPOSITIVE").Some?
            && {ChildText(es[0], "ISDEEMEDPOSITIVE").value, ChildText(es[1], "ISDEEMEDPOSITIVE").value} == {"Yes", "No"}
            && (IsZero(t.withdrawal) <==> ChildText(es[0], "ISDEEMEDPOSITIVE") == Some("No"))
  {
    VoucherNodeEntries(TextsOf(t, index), bankName, ledgerName);
  }

  /**
   * The amounts of the two entries are one amount with opposite signs: the
   * deposit for a receipt (positive on the bank side), the withdrawal for a
   * payment (positive on the bank side too, the contra ledger getting the
   * minus). The plain text reads back as the amount; the text with the minus
   * in front reads back as its opposite when the amount is not negative.
   */
  lemma LedgerAmountsOpposite(t: Transaction, index: nat, bankName: string, ledgerName: string)
    ensures var es := ChildrenNamed(Voucher(t, index, bankName, ledgerName), "ALLLEDGERENTRIES.LIST");
            var amount := if IsZero(t.withdrawal) then t.deposit else t.withdrawal;
            var plain := NumberToString(amount);
            && |es| == 2
            && ChildText(es[0], "AMOUNT") == Some(if IsZero(t.withdrawal) then plain else "-" + plain)
            && ChildText(es[1], "AMOUNT") == Some(if IsZero(t.withdrawal) then "-" + plain else plain)
            && ParseDecimal(plain) == Some(Normalize(amount))
            && SameValue(Normalize(amount), amount)
            && (amount.units >= 0 ==>
                  ParseDecimal("-" + plain) == Some(Decimal(-Normalize(amount).units, Normalize(amount).scale)))
  {
    VoucherNodeEntries(TextsOf(t, index), bankName, ledgerName);
    var amount := if IsZero(t.withdrawal) then t.deposit else t.withdrawal;
    NumberToStringParses(amount);
    NegatedTextParses(amount);
  }

  /**
   * The envelope: a header asking to import data, a request description for
   * the voucher report of the company, and the request data holding exactly
   * the messages.
   */
  lemma EnvelopeLayout(messages: seq<Node>)
    ensures var doc := Envelope(messages);
            && doc.tag == "ENVELOPE"
            && Path(doc, ["HEADER", "TALLYREQUEST"]).Some?
            && TextContent(Path(doc, ["HEADER", "TALLYREQUEST"]).value) == "Import Data"
            && Path(doc, ["BODY", "IMPORTDATA", "REQUESTDESC", "REPORTNAME"]).Some?
            && TextContent(Path(doc, ["BODY", "IMPORTDATA", "REQUESTDESC", "REPORTNAME"]).value) == "Vouchers"
            && Path(doc, ["BODY", "IMPORTDATA", "REQUESTDESC", "STATICVARIABLES", "SVCURRENTCOMPANY"]).Some?
            && TextContent(Path(doc, ["BODY", "IMPORTDATA", "REQUESTDESC", "STATICVARIABLES", "SVCURRENTCOMPANY"]).value)
               == "Your Company Name"
            && Path(doc, RequestDataPath) == Some(Element("REQUESTDATA", [], messages))
  {
    var doc := Envelope(messages);
    var header := doc.children[0];
    var body := doc.children[1];
    var importData := body.children[0];
    var requestDesc := importData.children[0];
    var staticVars := requestDesc.children[1];
    FirstNamedAt(doc.children, "HEADER", 0);
    FirstNamedAt(header.children, "TALLYREQUEST", 0);
    FirstNamedAt(doc.children, "BODY", 1);
    FirstNamedAt(body.children, "IMPORTDATA", 0);
    FirstNamedAt(importData.children, "REQUESTDESC", 0);
    FirstNamedAt(importData.children, "REQUESTDATA", 1);
    FirstNamedAt(requestDesc.children, "REPORTNAME", 0);
    FirstNamedAt(requestDesc.children, "STATICVARIABLES", 1);
    FirstNamedAt(staticVars.children, "SVCURRENTCOMPANY", 0);
    TextElementContent("TALLYREQUEST", "Import Data");
    TextElementContent("REPORTNAME", "Vouchers");
    TextElementContent("SVCURRENTCOMPANY", "Your Company Name");
    var p1 := ["HEADER", "TALLYREQUEST"];
    PathStep(doc, p1, header);
    PathStep(header, p1[1..], header.children[0]);
    var p2 := ["BODY", "IMPORTDATA", "REQUESTDESC", "REPORTNAME"];
    PathStep(doc, p2, body);
    PathStep(body, p2[1..], importData);
    PathStep(importData, p2[2..], requestDesc);
    assert p2[2..][1..] == p2[3..];
    PathStep(requestDesc, p2[3..], requestDesc.children[0]);
    assert p2[3..][1..] == [];
    var p3 := ["BODY", "IMPORTDATA", "REQUESTDESC", "STATICVARIABLES", "SVCURRENTCOMPANY"];
    PathStep(doc, p3, body);
    PathStep(body, p3[1..], importData);
    PathStep(importData, p3[2..], requestDesc);
    assert p3[2..][1..] == p3[3..];
    PathStep(requestDesc, p3[3..], staticVars);
    assert p3[3..][1..] == p3[4..];
    PathStep(staticVars, p3[4..], staticVars.children[0]);
    assert p3[4..][1..] == [];
    var p4 := RequestDataPath;
    PathStep(doc, p4, body);
    PathStep(body, p4[1..], importData);
    PathStep(importData, p4[2..], importData.children[1]);
    assert p4[2..][1..] == [];
  }

  /** A message holds the row's voucher, whose number is the row's index plus one. */
  lemma MessageLayout(t: Transaction, index: nat, bankName: string, ledgerName: string)
    ensures Named(TallyMessage(t, index, bankName, ledgerName), "TALLYMESSAGE")
    ensures Child(TallyMessage(t, index, bankName, ledgerName), "VOUCHER") == Some(Voucher(t, index, bankName, ledgerName))
    ensures ChildText(Voucher(t, index, bankName, ledgerName), "VOUCHERNUMBER") == Some(NatToString(index + 1))
  {
    FirstNamedAt([Voucher(t, index, bankName, ledgerName)], "VOUCHER", 0);
    VoucherNodeFields(TextsOf(t, index), bankName, ledgerName);
  }

  /**
   * The document holds one `TALLYMESSAGE` per row, in row order; the message
   * for row `i` holds that row's voucher, numbered `i + 1`, so the numbers are
   * `1 .. n` and no two messages share one.
   */
  lemma MessagesInOrder(data: seq<Transaction>, bankName: string, ledgerName: string)
    ensures var doc := Envelope(Messages(data, bankName, ledgerName));
            && Path(doc, RequestDataPath).Some?
            && var ms := ChildrenNamed(Path(doc, RequestDataPath).value, "TALLYMESSAGE");
            && |ms| == |data|
            && (forall i :: 0 <= i < |ms| ==>
                  Child(ms[i], "VOUCHER") == Some(Voucher(data[i], i, bankName, ledgerName))
                  && ChildText(Voucher(data[i], i, bankName, ledgerName), "VOUCHERNUMBER") == Some(NatToString(i + 1)))
  {
    var ms := Messages(data, bankName, ledgerName);
    EnvelopeLayout(ms);
    forall i | 0 <= i < |ms|
      ensures Named(ms[i], "TALLYMESSAGE")
      ensures Child(ms[i], "VOUCHER") == Some(Voucher(data[i], i, bankName, ledgerName))
      ensures ChildText(Voucher(data[i], i, bankName, ledgerName), "VOUCHERNUMBER") == Some(NatToString(i + 1))
    {
      MessagesAt(data, bankName, ledgerName, i);
      MessageLayout(data[i], i, bankName, ledgerName);
    }
    NamedAmongAll(ms, "TALLYMESSAGE");
  }

  /** Vouchers built at different positions carry different numbers, whatever their rows. */
  lemma VoucherNumbersDistinct(t: Transaction, i: nat, u: Transaction, j: nat, bankName: string, ledgerName: string)
    requires i != j
    ensures ChildText(Voucher(t, i, bankName, ledgerName), "VOUCHERNUMBER")
         != ChildText(Voucher(u, j, bankName, ledgerName), "VOUCHERNUMBER")
  {
    VoucherNodeFields(TextsOf(t, i), bankName, ledgerName);
    VoucherNodeFields(TextsOf(u, j), bankName, ledgerName);
    if NatToString(i + 1) == NatToString(j + 1) {
      NatToStringInjective(i + 1, j + 1);
    }
  }

  /**
   * `createXml(data)`: the loop appends one message per row to the request
   * data, numbering the rows by their index, and the envelope is wrapped
   * around the result.
   */
  method CreateXml(data: seq<Transaction>, bankName: string, ledgerName: string) returns (doc: Node)
    ensures doc == Envelope(Messages(data, bankName, ledgerName))
  {
    var requestData: seq<Node> := [];
    var index := 0;
    while index < |data|
      invariant 0 <= index <= |data|
      invariant requestData == Messages(data[..index], bankName, ledgerName)
    {
      assert data[..index + 1][..index] == data[..index];
      requestData := requestData + [TallyMessage(data[index], index, bankName, ledgerName)];
      index := index + 1;
    }
    assert data[..index] == data;
    doc := Envelope(requestData);
  }

  /**
   * `generateTallyXML()`: nothing is generated when there are no rows;
   * otherwise the document of `createXml`.
   */
  method GenerateTallyXml(data: seq<Transaction>, bankName: string, ledgerName: string) returns (doc: Option<Node>)
    ensures doc.None? <==> |data| == 0
    ensures doc.Some? ==> doc.value == Envelope(Messages(data, bankName, ledgerName))
  {
    if |data| == 0 {
      return None;
    }
    var xml := CreateXml(data, bankName, ledgerName);
    return Some(xml);
  }
}
