/** The keyword rules that give each transaction a spending category, and
    the fallbacks for descriptions that match none of them. */
module Categorizer {
  import opened Wrappers
  import opened Sequences
  import Amounts
  import Ledger

  const Salary: string := "Salary & Income"
  const Entertainment: string := "Entertainment"
  const Payments: string := "Payments"
  const Transfers: string := "Transfers"
  const Fees: string := "Fees & Charges"
  const Insurance: string := "Insurance"
  const Utilities: string := "Utilities & Telecom"
  const CashHandling: string := "Cash Handling"
  const Loans: string := "Loans & EMI"
  const Miscellaneous := Ledger.Miscellaneous
  const CardReference: string := "Card Reference"
  const Account: string := "Account"
  const Others: string := "Others"

  /** Number of keyword rules. */
  const RuleCount := 66

  /** Keyword rule `i`, in the order the rule table lists them: a keyword to
      look for in the upper-cased description and the category it gives. */
  function Rule(i: nat): (string, string)
    requires i < RuleCount
  {
    match i
    case 0 => ("INDIAFORENSIC", Salary)
    case 1 => ("INDIAFORENS", Salary)
    case 2 => ("RMCPL", Salary)
    case 3 => ("POS", Entertainment)
    case 4 => ("SETTLEMENT", Payments)
    case 5 => ("SETT", Payments)
    case 6 => ("NEFT", Transfers)
    case 7 => ("RTGS", Transfers)
    case 8 => ("IMPS", Transfers)
    case 9 => ("TRF FROM", Transfers)
    case 10 => ("FTR FROM", Transfers)
    case 11 => ("TRF TO", Transfers)
    case 12 => ("SWEEP TRF TO", Transfers)
    case 13 => ("COMMISSION", Fees)
    case 14 => ("SERVICE TAX", Fees)
    case 15 => ("S TAX", Fees)
    case 16 => ("GROCERY", Entertainment)
    case 17 => ("RENT", Salary)
    case 18 => ("INSURANCE", Insurance)
    case 19 => ("INDO GIBL", Insurance)
    case 20 => ("BBPS", Utilities)
    case 21 => ("FDRL", Transfers)
    case 22 => ("INTERNAL FUND TRANSFER", Transfers)
    case 23 => ("MICRO ATM", CashHandling)
    case 24 => ("ATM", CashHandling)
    case 25 => ("CASHDEP", CashHandling)
    case 26 => ("DSB CASH PICKP", CashHandling)
    case 27 => ("BEAT CASH PICKP", CashHandling)
    case 28 => ("SHORT CSH", CashHandling)
    case 29 => ("LOAN RECOVERY", Loans)
    case 30 => ("AIRTEL", Utilities)
    case 31 => ("IRCTC", Entertainment)
    case 32 => ("CHQ DEPOSIT RETURN", Fees)
    case 33 => ("INCOME", Salary)
    case 34 => ("REMI", Salary)
    case 35 => ("INDFOR", Salary)
    case 36 => ("STL", Payments)
    case 37 => ("AEPS", Fees)
    case 38 => ("ADJ", Fees)
    case 39 => ("CB", Payments)
    case 40 => ("CR", Payments)
    case 41 => ("DR", Payments)
    case 42 => ("MAW", Fees)
    case 43 => ("Miscellaneous", Miscellaneous)
    case 44 => ("CHQ DEP", Payments)
    case 45 => ("CHEQUE DEPOSIT", Payments)
    case 46 => ("CHQ", Payments)
    case 47 => ("SBI", Miscellaneous)
    case 48 => ("VODAFONE", Utilities)
    case 49 => ("MOBILE SERVICES", Utilities)
    case 50 => ("CASHPICKUP", CashHandling)
    case 51 => ("CASH PICKUP", CashHandling)
    case 52 => ("RVSL DSB CSH PCKUP", CashHandling)
    case 53 => ("DSB CSH PCKUP", CashHandling)
    case 54 => ("PICKUP CHARGE", CashHandling)
    case 55 => ("SER TAX", Fees)
    case 56 => ("NORTH DELHI POWER", Utilities)
    case 57 => ("RAJDHANI POWER", Utilities)
    case 58 => ("BSES", Utilities)
    case 59 => ("INDIAIDEAS", Payments)
    case 60 => ("BIGTREE", Entertainment)
    case 61 => ("BOOKMYSHOW", Entertainment)
    case 62 => ("SONATA FINANCE", Loans)
    case 63 => ("MANGALA FINANCE", Loans)
    case 64 => ("SHETTY", Loans)
    case _ => ("BY ", Transfers)
  }

  /** The rule table as an ordered sequence. */
  function KeywordRules(): (rules: seq<(string, string)>)
    ensures |rules| == RuleCount
    ensures forall i :: 0 <= i < RuleCount ==> rules[i] == Rule(i)
  {
    seq(RuleCount, i requires 0 <= i < RuleCount => Rule(i))
  }

  predicate IsLower(c: char) {
    'a' <= c <= 'z'
  }

  /** Upper-casing of one character (ASCII letters only). */
  function UpperChar(c: char): (u: char)
    ensures !IsLower(u)
    ensures IsLower(c) ==> u as int == c as int - 32 && 'A' <= u <= 'Z'
    ensures !IsLower(c) ==> u == c
  {
    if IsLower(c) then (c as int - 32) as char else c
  }

  function Upper(s: string): (r: string)
    ensures |r| == |s|
    ensures forall i :: 0 <= i < |r| ==> !IsLower(r[i])
    ensures forall i :: 0 <= i < |s| ==> r[i] == UpperChar(s[i])
  {
    Map(UpperChar, s)
  }

  /** Text with no lower-case letter is its own upper-case form. */
  lemma UpperKeepsUppercase(s: string)
    requires forall i :: 0 <= i < |s| ==> !IsLower(s[i])
    ensures Upper(s) == s
  {
  }

  /** `keyword` occurs in `text` starting at index `i`. */
  predicate OccursAt(text: string, keyword: string, i: int) {
    0 <= i && i + |keyword| <= |text| && text[i..i + |keyword|] == keyword
  }

  /** Python's `keyword in text`: `keyword` occurs as a contiguous piece. */
  predicate Contains(text: string, keyword: string) {
    exists i :: 0 <= i <= |text| - |keyword| && OccursAt(text, keyword, i)
  }

  /** Index of the first rule whose keyword occurs in `text`. */
  function FirstMatch(rules: seq<(string, string)>, text: string): (r: Option<nat>)
    ensures r.Some? ==> r.value < |rules| && Contains(text, rules[r.value].0)
    ensures r.Some? ==> forall j :: 0 <= j < r.value ==> !Contains(text, rules[j].0)
    ensures r.None? ==> forall j :: 0 <= j < |rules| ==> !Contains(text, rules[j].0)
  {
    if |rules| == 0 then None
    else if Contains(text, rules[0].0) then Some(0)
    else
      match FirstMatch(rules[1..], text)
      case None => None
      case Some(j) => Some(j + 1)
  }

  /** Word characters of a regular expression's `\b` (ASCII only). */
  predicate IsWordChar(c: char) {
    ('a' <= c <= 'z') || ('A' <= c <= 'Z') || Amounts.IsDigit(c) || c == '_'
  }

  /** `\b\d{n}\b` matches at `i`: `n` digits with no word character
      directly before or after them. */
  predicate DigitWordAt(s: string, n: nat, i: int) {
    && 0 <= i && i + n <= |s|
    && (forall k :: i <= k < i + n ==> Amounts.IsDigit(s[k]))
    && (i == 0 || !IsWordChar(s[i - 1]))
    && (i + n == |s| || !IsWordChar(s[i + n]))
  }

  /** `re.search(r'\b\d{n}\b', s)` finds a match. */
  predicate HasDigitWord(s: string, n: nat) {
    exists i :: 0 <= i <= |s| - n && DigitWordAt(s, n, i)
  }

  /** The category of text that matches no keyword. */
  function Fallback(text: string): (category: string)
    ensures category == CardReference <==> HasDigitWord(text, 16)
    ensures category == Account <==> !HasDigitWord(text, 16) && HasDigitWord(text, 12)
    ensures category == Others <==> !HasDigitWord(text, 16) && !HasDigitWord(text, 12)
  {
    if HasDigitWord(text, 16) then CardReference
    else if HasDigitWord(text, 12) then Account
    else Others
  }

  /** The category of upper-cased text: the first rule whose keyword occurs
      in it, and the fallbacks only when no keyword does. */
  function Scan(text: string): (category: string)
    ensures forall j :: FirstRule(text, j) ==> category == Rule(j).1
    ensures NoRule(text) ==> category == Fallback(text)
  {
    var rules := KeywordRules();
    var m := FirstMatch(rules, text);
    if m.Some? then rules[m.value].1 else Fallback(text)
  }

  /** Rule `j` is the first one whose keyword occurs in `text`. */
  predicate FirstRule(text: string, j: int) {
    && 0 <= j < RuleCount
    && Contains(text, Rule(j).0)
    && forall k :: 0 <= k < j ==> !Contains(text, Rule(k).0)
  }

  /** No rule's keyword occurs in `text`. */
  predicate NoRule(text: string) {
    forall j :: 0 <= j < RuleCount ==> !Contains(text, Rule(j).0)
  }

  /** The category of a description. The exact text "Miscellaneous" keeps
      that category without any scan; everything else is scanned
      upper-cased. */
  function Categorize(description: string): (category: string)
    ensures description == Miscellaneous ==> category == Miscellaneous
    ensures description != Miscellaneous ==> category == Scan(Upper(description))
  {
    if description == Miscellaneous then Miscellaneous else Scan(Upper(description))
  }

  /** `Contains` is transitive: a piece of a piece of `text` is a piece of `text`. */
  lemma ContainsTransitive(text: string, middle: string, keyword: string)
    requires Contains(text, middle) && Contains(middle, keyword)
    ensures Contains(text, keyword)
  {
    var i :| 0 <= i <= |text| - |middle| && OccursAt(text, middle, i);
    var k :| 0 <= k <= |middle| - |keyword| && OccursAt(middle, keyword, k);
    forall t | 0 <= t < |keyword|
      ensures text[i + k + t] == keyword[t]
    {
      assert text[i + k + t] == text[i..i + |middle|][k + t];
      assert middle[k + t] == middle[k..k + |keyword|][t];
    }
    assert OccursAt(text, keyword, i + k);
  }

  /** A keyword containing a character that `text` lacks does not occur in it. */
  lemma MissingCharacter(text: string, keyword: string, k: int)
    requires 0 <= k < |keyword|
    requires forall i :: 0 <= i < |text| ==> text[i] != keyword[k]
    ensures !Contains(text, keyword)
  {
    forall i | 0 <= i <= |text| - |keyword|
      ensures !OccursAt(text, keyword, i)
    {
      assert text[i..i + |keyword|][k] == text[i + k];
    }
  }

  /** A later rule whose keyword contains an earlier rule's keyword never
      decides a category: wherever it occurs, the earlier one occurs too. */
  lemma Shadowed(text: string, i: nat, j: nat)
    requires i < j < RuleCount
    requires Contains(Rule(j).0, Rule(i).0)
    ensures !FirstRule(text, j)
  {
    if FirstRule(text, j) {
      ContainsTransitive(text, Rule(j).0, Rule(i).0);
    }
  }

  lemma SweepContainsTransfer()
    ensures Contains(Rule(12).0, Rule(11).0)
  {
    assert OccursAt(Rule(12).0, Rule(11).0, 6);
  }

  lemma ChequeReturnContainsPos()
    ensures Contains(Rule(32).0, Rule(3).0)
  {
    assert OccursAt(Rule(32).0, Rule(3).0, 6);
  }

  lemma ChequeDepositContainsPos()
    ensures Contains(Rule(45).0, Rule(3).0)
  {
    assert OccursAt(Rule(45).0, Rule(3).0, 9);
  }

  /** "SWEEP TRF TO" (rule 12) is shadowed by "TRF TO" (rule 11),
      "CHQ DEPOSIT RETURN" (rule 32) and "CHEQUE DEPOSIT" (rule 45) by "POS"
      (rule 3), so none of the three ever decides a category. */
  lemma ShadowedRules(text: string)
    ensures !FirstRule(text, 12) && !FirstRule(text, 32) && !FirstRule(text, 45)
  {
    SweepContainsTransfer();
    Shadowed(text, 11, 12);
    ChequeReturnContainsPos();
    Shadowed(text, 3, 32);
    ChequeDepositContainsPos();
    Shadowed(text, 3, 45);
  }

  /** The mixed-case keyword "Miscellaneous" (rule 43) is looked for in
      upper-cased text, where it can never occur. */
  lemma MixedCaseRuleNeverMatches(description: string)
    ensures !FirstRule(Upper(description), 43)
  {
    var keyword := Rule(43).0;
    assert IsLower(keyword[1]);
    MissingCharacter(Upper(description), keyword, 1);
  }

  /** Every category a description can get. */
  const Labels: set<string> := {
    Salary, Entertainment, Payments, Transfers, Fees, Insurance, Utilities,
    CashHandling, Loans, Miscellaneous, CardReference, Account, Others
  }

  lemma RuleCategoryIsLabel(j: nat)
    requires j < RuleCount
    ensures Rule(j).1 in Labels
  {
  }

  /** The scan either finds a first matching rule or finds none. */
  lemma ScanCases(text: string)
    ensures NoRule(text) || exists j :: FirstRule(text, j)
  {
    var rules := KeywordRules();
    var m := FirstMatch(rules, text);
    if m.Some? {
      assert FirstRule(text, m.value);
    }
  }

  /** A description always ends up in one of the known categories. */
  lemma CategoryIsLabel(description: string)
    ensures Categorize(description) in Labels
  {
    if description != Miscellaneous {
      var text := Upper(description);
      ScanCases(text);
      if !NoRule(text) {
        var j :| FirstRule(text, j);
        RuleCategoryIsLabel(j);
      }
    }
  }

  /** Only rules 43 ("Miscellaneous") and 47 ("SBI") give the category
      Miscellaneous. */
  lemma MiscellaneousRules(j: nat)
    requires j < RuleCount
    ensures Rule(j).1 == Miscellaneous <==> j == 43 || j == 47
  {
  }

  /** Since rule 43 never matches, a description is Miscellaneous only when it
      is exactly "Miscellaneous" (the filler for a missing description) or
      when "SBI" occurs in it before any other keyword. */
  lemma MiscellaneousOnlyFromSbi(description: string)
    ensures Categorize(description) == Miscellaneous <==>
      description == Miscellaneous || FirstRule(Upper(description), 47)
  {
    if description != Miscellaneous {
      var text := Upper(description);
      ScanCases(text);
      if NoRule(text) {
        assert !FirstRule(text, 47);
      } else {
        var j :| FirstRule(text, j);
        MiscellaneousRules(j);
        MixedCaseRuleNeverMatches(description);
      }
    }
  }

  /** A keyword longer than the text cannot occur in it. */
  lemma TooLong(text: string, keyword: string)
    requires |keyword| > |text|
    ensures !Contains(text, keyword)
  {
  }

  /** "ATM NEFT" is a transfer: the table lists "NEFT" (rule 6) before "ATM"
      (rule 24), and table order, not the position in the description,
      decides. */
  lemma TableOrderDecides()
    ensures Contains(Upper("ATM NEFT"), Rule(24).0)
    ensures Categorize("ATM NEFT") == Transfers
  {
    var text := "ATM NEFT";
    UpperKeepsUppercase(text);
    assert OccursAt(text, Rule(24).0, 0);
    assert OccursAt(text, Rule(6).0, 4);
    TooLong(text, Rule(0).0);
    TooLong(text, Rule(1).0);
    MissingCharacter(text, Rule(2).0, 0);
    MissingCharacter(text, Rule(3).0, 0);
    TooLong(text, Rule(4).0);
    MissingCharacter(text, Rule(5).0, 0);
    assert FirstRule(text, 6);
  }

  /** Upper-casing twice is upper-casing once. */
  lemma UpperIdempotent(s: string)
    ensures Upper(Upper(s)) == Upper(s)
  {
    UpperKeepsUppercase(Upper(s));
  }

  /** Matching ignores case: apart from the exact text "Miscellaneous",
      a description and its upper-case form get the same category. */
  lemma CategorizeIgnoresCase(description: string)
    ensures description != Miscellaneous ==>
      Categorize(description) == Categorize(Upper(description))
  {
    var upper := Upper(description);
    assert upper != Miscellaneous by {
      if |upper| == |Miscellaneous| {
        assert IsLower(Miscellaneous[1]) && !IsLower(upper[1]);
      }
    }
    UpperIdempotent(description);
  }

  /** "atm neft" is a transfer just as "ATM NEFT" is. */
  lemma LowerCaseIsMatched()
    ensures Categorize("atm neft") == Transfers
  {
    assert Upper("atm neft") == "ATM NEFT";
    CategorizeIgnoresCase("atm neft");
    TableOrderDecides();
  }

  /** "CHQ DEPOSIT RETURN" is entertainment: "POS" (rule 3) occurs inside
      "DEPOSIT", so the rule written for this very text (rule 32) is never
      reached. */
  lemma ChequeReturnIsEntertainment()
    ensures Categorize("CHQ DEPOSIT RETURN") == Entertainment
  {
    var text := "CHQ DEPOSIT RETURN";
    ChequeReturnUpper();
    ChequeReturnFirstRule();
    assert text != Miscellaneous;
  }

  lemma ChequeReturnUpper()
    ensures Upper("CHQ DEPOSIT RETURN") == "CHQ DEPOSIT RETURN"
  {
    UpperKeepsUppercase("CHQ DEPOSIT RETURN");
  }

  lemma ChequeReturnFirstRule()
    ensures FirstRule("CHQ DEPOSIT RETURN", 3)
  {
    var text := "CHQ DEPOSIT RETURN";
    assert OccursAt(text, Rule(3).0, 6);
    ChequeReturnNoEarlierRule(0, 4);
    ChequeReturnNoEarlierRule(1, 4);
    ChequeReturnNoEarlierRule(2, 1);
  }

  lemma ChequeReturnNoEarlierRule(j: nat, k: int)
    requires j < RuleCount && 0 <= k < |Rule(j).0|
    requires Rule(j).0[k] == 'A' || Rule(j).0[k] == 'M'
    ensures !Contains("CHQ DEPOSIT RETURN", Rule(j).0)
  {
    MissingCharacter("CHQ DEPOSIT RETURN", Rule(j).0, k);
  }

  /** The check for a missing description is case-sensitive: the upper-case
      word goes through the scan, and does not come out Miscellaneous. */
  lemma UpperCaseWordIsScanned()
    ensures Categorize("MISCELLANEOUS") == Scan("MISCELLANEOUS")
    ensures Categorize("MISCELLANEOUS") != Miscellaneous
  {
    var text := "MISCELLANEOUS";
    UpperKeepsUppercase(text);
    assert text[1] != Miscellaneous[1];
    MissingCharacter(text, Rule(47).0, 1);
    MiscellaneousOnlyFromSbi(text);
  }

  /** A transaction with the category its description gets. */
  datatype Categorized = Categorized(txn: Ledger.Transaction, category: string)

  function Tag(t: Ledger.Transaction): Categorized {
    Categorized(t, Categorize(t.details))
  }

  /** Adds the category column: rows keep their order and content, and each
      gets the category of its own description. */
  function CategorizeAll(rows: seq<Ledger.Transaction>): (r: seq<Categorized>)
    ensures |r| == |rows|
    ensures forall i :: 0 <= i < |rows| ==> r[i].txn == rows[i]
    ensures forall i :: 0 <= i < |rows| ==> r[i].category == Categorize(rows[i].details)
    ensures forall i :: 0 <= i < |rows| ==> r[i].category in Labels
  {
    forall t | t in rows
      ensures Categorize(t.details) in Labels
    {
      CategoryIsLabel(t.details);
    }
    Map(Tag, rows)
  }

  function Untag(c: Categorized): Ledger.Transaction {
    c.txn
  }

  /** Dropping the category column gives back the rows that were categorized. */
  lemma CategorizeAllKeepsRows(rows: seq<Ledger.Transaction>)
    ensures Map(Untag, CategorizeAll(rows)) == rows
  {
  }

  /** Categorizing is row by row, so it commutes with splitting the rows. */
  lemma CategorizeAllAppend(a: seq<Ledger.Transaction>, b: seq<Ledger.Transaction>)
    ensures CategorizeAll(a + b) == CategorizeAll(a) + CategorizeAll(b)
  {
  }
}
