/**
 The display logic of the loan details page around the schedule: the
 status badge (colour class and capitalised text), the tenure label, and
 the payment table that shows twelve rows until it is expanded.
 */
module LoanDetails {

  import opened Text
  import opened Amortization
  import opened Loans

  const ActiveClass := "bg-green-100 text-green-800 dark:bg-green-900/30 dark:text-green-400"
  const PendingClass := "bg-yellow-100 text-yellow-800 dark:bg-yellow-900/30 dark:text-yellow-400"
  const ClosedClass := "bg-gray-100 text-gray-800 dark:bg-gray-800 dark:text-gray-400"
  const DefaultedClass := "bg-red-100 text-red-800 dark:bg-red-900/30 dark:text-red-400"
  const DefaultClass := "bg-blue-100 text-blue-800 dark:bg-blue-900/30 dark:text-blue-400"

  /** The statuses with a colour of their own, keyed by their lower-case spelling. */
  const ColorTable: map<string, string> :=
    map["active" := ActiveClass, "pending" := PendingClass,
        "closed" := ClosedClass, "defaulted" := DefaultedClass]

  /**
   `getStatusColor(status)`: a switch on the lower-cased status with a
   default case, which is the table lookup with the default class as the
   fallback.
   */
  function StatusColor(status: string): (r: string)
    ensures Lower(status) in ColorTable ==> r == ColorTable[Lower(status)]
    ensures Lower(status) !in ColorTable ==> r == DefaultClass
  {
    match Lower(status)
    case "active" => ActiveClass
    case "pending" => PendingClass
    case "closed" => ClosedClass
    case "defaulted" => DefaultedClass
    case _ => DefaultClass
  }

  /** The five colour classes differ from one another. */
  lemma ClassesDistinct()
    ensures ActiveClass != PendingClass && ActiveClass != ClosedClass
    ensures ActiveClass != DefaultedClass && ActiveClass != DefaultClass
    ensures PendingClass != ClosedClass && PendingClass != DefaultedClass && PendingClass != DefaultClass
    ensures ClosedClass != DefaultedClass && ClosedClass != DefaultClass
    ensures DefaultedClass != DefaultClass
  {
    // The five strings have five different lengths.
    assert |ActiveClass| == 68 && |PendingClass| == 72 && |ClosedClass| == 61;
    assert |DefaultedClass| == 60 && |DefaultClass| == 64;
  }

  /** The five classes are pairwise distinct, so the colour tells the four known statuses and the rest apart. */
  lemma StatusColorDistinguishes(a: string, b: string)
    requires StatusColor(a) == StatusColor(b)
    ensures Lower(a) in ColorTable <==> Lower(b) in ColorTable
    ensures Lower(a) in ColorTable ==> Lower(a) == Lower(b)
  {
    ClassesDistinct();
  }

  /** The colour depends on the status only up to letter case. */
  lemma StatusColorIgnoresCase(a: string, b: string)
    requires Lower(a) == Lower(b)
    ensures StatusColor(a) == StatusColor(b)
  {
  }

  /** `status.charAt(0).toUpperCase() + status.slice(1)`; the empty status stays empty. */
  function Capitalize(s: string): (r: string)
    ensures |r| == |s|
    ensures |s| > 0 ==> r[0] == UpperChar(s[0]) && r[1..] == s[1..]
  {
    if |s| == 0 then "" else [UpperChar(s[0])] + s[1..]
  }

  /** Capitalising changes letter case only, so the badge text and colour agree. */
  lemma CapitalizeKeepsColor(s: string)
    ensures Lower(Capitalize(s)) == Lower(s)
    ensures StatusColor(Capitalize(s)) == StatusColor(s)
  {
    if |s| > 0 {
      LowerUpperChar(s[0]);
      assert Lower(Capitalize(s))[0] == Lower(s)[0];
    }
  }

  /** Capitalising an already capitalised status changes nothing. */
  lemma CapitalizeIdempotent(s: string)
    ensures Capitalize(Capitalize(s)) == Capitalize(s)
  {
  }

  /** The tenure entry: `${tenure} month` for one, `${tenure} months` otherwise. */
  function TenureLabel(tenure: int): (r: string)
    ensures var n := IntToString(tenure);
            && |r| > |n|
            && r[..|n|] == n
            && r[|n|] == ' '
            && (r[|n| + 1..] == "month" <==> tenure == 1)
            && (r[|n| + 1..] == "months" <==> tenure != 1)
  {
    IntToString(tenure) + " " + if tenure == 1 then "month" else "months"
  }

  /** The number of rows the collapsed table shows. */
  const CollapsedRows := 12

  function Min(a: int, b: int): int
  {
    if a <= b then a else b
  }

  /** `schedule.slice(0, showAll ? undefined : 12)`. */
  function VisibleRows(rows: seq<Entry>, showAll: bool): (r: seq<Entry>)
    ensures showAll ==> r == rows
    ensures !showAll ==> |r| == Min(CollapsedRows, |rows|) && r == rows[..|r|]
  {
    if showAll then rows else rows[..Min(CollapsedRows, |rows|)]
  }

  /** The expand/collapse button is rendered when the tenure exceeds twelve months. */
  predicate ShowsToggle(tenure: int)
    ensures var n := if tenure > 0 then tenure else 0;
            ShowsToggle(tenure) <==> Min(CollapsedRows, n) < n
  {
    tenure > CollapsedRows
  }

  /** The button's caption. */
  function ToggleCaption(showAll: bool, tenure: int): (r: string)
    ensures showAll <==> r == "Show Less"
    ensures !showAll ==>
              var n := IntToString(tenure);
              && |r| == |"View all "| + |n| + |" payments"|
              && r[..|"View all "|] == "View all "
              && r[|"View all "|..|"View all "| + |n|] == n
              && r[|"View all "| + |n|..] == " payments"
  {
    if showAll then "Show Less" else "View all " + IntToString(tenure) + " payments"
  }

  /**
   No row is out of reach: for a table of `tenure` rows (none when the
   tenure is not positive), the collapsed table hides rows exactly when the
   toggle is shown, and then it shows the first twelve.
   */
  lemma EveryRowReachable(rows: seq<Entry>, tenure: int)
    requires |rows| == if tenure > 0 then tenure else 0
    ensures VisibleRows(rows, false) != rows <==> ShowsToggle(tenure)
    ensures ShowsToggle(tenure) ==> VisibleRows(rows, false) == rows[..CollapsedRows]
  {
    if ShowsToggle(tenure) {
      assert |VisibleRows(rows, false)| < |rows|;
    }
  }

  /** Both schedule generators produce one row per month of a positive tenure. */
  lemma GeneratedRowCount(loan: Loan)
    ensures GeneratePaymentSchedule(loan).Some? ==>
              |GeneratePaymentSchedule(loan).value| == if loan.tenure > 0 then loan.tenure else 0
    ensures GeneratePaymentScheduleCorrected(loan).Some? ==>
              |GeneratePaymentScheduleCorrected(loan).value| == if loan.tenure > 0 then loan.tenure else 0
  {
  }
}
