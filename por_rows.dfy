/**
  What one row of a POR file means, as values: which cells a layout reads,
  when a row is skipped, when it makes the conversion throw, and which
  repeated slots or columns of a wide row become items. The converter's
  methods perform these steps against the item caches.
 */
module PorRows {
  import opened JavaText
  import opened Cleaners
  import opened PorItems

  /** What a row loop does with one row: throws (an index past the end of the
      row, or a cleaner that throws), skips it, or uses the values read. */
  datatype Row<+T> = Abort | Skip | Use(value: T)

  /** The first cell of a row decides whether it is empty; a row with no cell
      at all makes `line[0]` throw. */
  predicate BlankRow(line: seq<string>)
    requires |line| > 0
  {
    line[0] == ""
  }

  // ---------------------------------------------------------------------
  // Single-file layouts: Camden and Stoke on Trent.

  /** The referral of a Camden row; age is the rounded column 2. */
  function CamdenReferral(line: seq<string>): ReferralFields
    requires |line| >= 24
  {
    NoReferralFields.(age := Some(RoundAge(line)), diagnosis := Some(line[5]), urgency := Some(line[6]),
                      source := Some(line[7]), outcome := Some(line[8]), referralDate := Some(line[9]),
                      triageDate := Some(line[11]), firstTreatmentDate := Some(line[19]),
                      dischargeDate := Some(line[20]), dischargeReason := Some(line[21]),
                      cumulativeCAMHS := Some(line[23]))
  }

  function CamdenRow(line: seq<string>): Row<ReferralFields> {
    if |line| == 0 then Abort
    else if BlankRow(line) then Skip
    else if |line| < 24 then Abort
    else Use(CamdenReferral(line))
  }

  /** The referral of a Stoke on Trent row: columns 2 to 16 in order. */
  function StokeReferral(line: seq<string>): ReferralFields
    requires |line| >= 17
  {
    ReferralFields(Some(line[2]), Some(line[3]), Some(line[6]), Some(line[7]), Some(line[8]),
                   Some(line[9]), Some(line[10]), Some(line[11]), Some(line[12]), Some(line[13]),
                   Some(line[14]), Some(line[15]), Some(line[16]))
  }

  function StokeRow(line: seq<string>): Row<ReferralFields> {
    if |line| == 0 then Abort
    else if BlankRow(line) then Skip
    else if |line| < 17 then Abort
    else Use(StokeReferral(line))
  }

  /** The Camden columns kept as AdditionalData (name from the header). */
  const CamdenExtras: seq<nat> := [12, 13, 14, 15, 16, 17, 18, 22]
  /** The Lewisham columns kept as AdditionalData. */
  const LewishamExtras: seq<nat> := [6, 7, 8, 9, 14, 16, 17]
  /** The Sunderland score columns; the value is in the next column. */
  const SunderlandScores: seq<nat> := [6, 8, 10, 12, 14]

  /** Where the contact slots of a wide row start, and whether the scan ran
      off the end of the row. */
  datatype Scan = Scan(starts: seq<nat>, aborted: bool)

  /** The slot loop `for (j = start; j < bound; j += width)`: it stops at a
      slot whose first cell is empty (or holds `NULL`, when `stopsOnNull`),
      and throws when a slot it reads is cut short by the end of the row. */
  function SlotScan(line: seq<string>, j: nat, bound: nat, width: nat, stopsOnNull: bool): (r: Scan)
    requires width > 0
    decreases bound - j
  {
    if j >= bound then Scan([], false)
    else if j >= |line| then Scan([], true)
    else if line[j] == "" || (stopsOnNull && Contains(line[j], "NULL")) then Scan([], false)
    else if j + width > |line| then Scan([], true)
    else
      var rest := SlotScan(line, j + width, bound, width, stopsOnNull);
      Scan([j] + rest.starts, rest.aborted)
  }

  /** One slot taken: the scan from `j` is `j` followed by the scan from the next slot. */
  lemma SlotScanNext(line: seq<string>, j: nat, bound: nat, width: nat, stopsOnNull: bool, done: seq<nat>)
    requires width > 0 && j < bound && j < |line| && j + width <= |line|
    requires line[j] != "" && !(stopsOnNull && Contains(line[j], "NULL"))
    ensures var r, rest := SlotScan(line, j, bound, width, stopsOnNull), SlotScan(line, j + width, bound, width, stopsOnNull);
            Scan(done + r.starts, r.aborted) == Scan((done + [j]) + rest.starts, rest.aborted)
  {
    assert done + ([j] + SlotScan(line, j + width, bound, width, stopsOnNull).starts)
           == (done + [j]) + SlotScan(line, j + width, bound, width, stopsOnNull).starts;
  }

  /** The slots visited are consecutive, complete, inside the bound and start
      with a non-empty cell (and no `NULL` marker, when that stops the scan). */
  predicate GoodSlots(line: seq<string>, j: nat, bound: nat, width: nat, stopsOnNull: bool, starts: seq<nat>)
    requires width > 0
  {
    forall i :: 0 <= i < |starts| ==>
      starts[i] == j + i * width && starts[i] < bound
      && starts[i] + width <= |line| && line[starts[i]] != ""
      && !(stopsOnNull && Contains(line[starts[i]], "NULL"))
  }

  lemma {:induction false} SlotScanStarts(line: seq<string>, j: nat, bound: nat, width: nat, stopsOnNull: bool)
    requires width > 0
    ensures GoodSlots(line, j, bound, width, stopsOnNull, SlotScan(line, j, bound, width, stopsOnNull).starts)
    decreases bound - j
  {
    var r := SlotScan(line, j, bound, width, stopsOnNull);
    if j < bound && j < |line| && line[j] != "" && !(stopsOnNull && Contains(line[j], "NULL"))
       && j + width <= |line|
    {
      var rest := SlotScan(line, j + width, bound, width, stopsOnNull);
      SlotScanStarts(line, j + width, bound, width, stopsOnNull);
      assert r.starts == [j] + rest.starts;
      forall i | 1 <= i < |r.starts|
        ensures r.starts[i] == j + i * width
      {
        assert r.starts[i] == rest.starts[i - 1];
        MulPredecessor(i, width);
      }
    }
  }

  lemma MulPredecessor(i: int, w: int)
    ensures (i - 1) * w == i * w - w
  {
  }

  /** Where a scan ends: it throws exactly when the slot after the last one
      visited is inside the bound, not a stopping cell, and cut short by the
      end of the row; otherwise it ended at the bound or at a stopping cell. */
  lemma {:induction false} SlotScanEnd(line: seq<string>, j: nat, bound: nat, width: nat, stopsOnNull: bool)
    requires width > 0
    ensures var r := SlotScan(line, j, bound, width, stopsOnNull);
            var e := j + |r.starts| * width;
            (r.aborted <==> e < bound && (e >= |line| || (line[e] != ""
                              && !(stopsOnNull && Contains(line[e], "NULL")) && e + width > |line|)))
            && (!r.aborted ==> e >= bound || line[e] == "" || (stopsOnNull && Contains(line[e], "NULL")))
    decreases bound - j
  {
    var r := SlotScan(line, j, bound, width, stopsOnNull);
    if j < bound && j < |line| && line[j] != "" && !(stopsOnNull && Contains(line[j], "NULL"))
       && j + width <= |line|
    {
      var rest := SlotScan(line, j + width, bound, width, stopsOnNull);
      SlotScanEnd(line, j + width, bound, width, stopsOnNull);
      assert |r.starts| == |rest.starts| + 1 && r.aborted == rest.aborted;
      MulSuccessor(|rest.starts|, width);
    } else {
      assert |r.starts| * width == 0;
    }
  }

  lemma MulSuccessor(n: int, w: int)
    ensures (n + 1) * w == w + n * w
  {
  }

  /** A Stoke on Trent row holds at most 50 contacts. */
  lemma StokeSlotsAtMostFifty(line: seq<string>)
    ensures |SlotScan(line, 17, 317, 6, true).starts| <= 50
  {
    var r := SlotScan(line, 17, 317, 6, true);
    SlotScanStarts(line, 17, 317, 6, true);
    if |r.starts| > 0 {
      var n := |r.starts| - 1;
      assert r.starts[n] == 17 + n * 6;
    }
  }

  /** The two wide layouts whose rows end in repeated contact slots. */
  datatype SlotKind = CamdenSlots | StokeSlots

  /** Camden slots start at column 24 and have 4 cells; Stoke on Trent slots
      start at 17 and have 6. */
  function SlotStart(kind: SlotKind): nat {
    if kind == CamdenSlots then 24 else 17
  }

  function SlotWidth(kind: SlotKind): nat {
    if kind == CamdenSlots then 4 else 6
  }

  /** Only the Stoke on Trent scan also stops at a `NULL` marker. */
  predicate SlotStopsOnNull(kind: SlotKind) {
    kind == StokeSlots
  }

  /** The contact of the slot at `j`. Camden: date, team, type, attendance,
      with the row's referral outcome as the contact outcome. Stoke on Trent:
      date, urgency, type, attendance, team, tier, and no outcome. */
  function SlotContact(kind: SlotKind, line: seq<string>, j: nat, outcome: Option<string>): ContactFields
    requires j + SlotWidth(kind) <= |line|
  {
    match kind
    case CamdenSlots =>
      ContactFields(None, None, Some(line[j]), None, Some(line[j + 2]), Some(line[j + 3]),
                    outcome, Some(line[j + 1]), None)
    case StokeSlots =>
      ContactFields(None, None, Some(line[j]), Some(line[j + 1]), Some(line[j + 2]), Some(line[j + 3]),
                    None, Some(line[j + 4]), Some(line[j + 5]))
  }

  /** The column loop over `cols`: `header[c]` names the value `line[c]`. With
      `scores`, an empty cell is passed over and the value is `line[c + 1]`.
      A column past the end of the header or of the row throws. */
  function ColumnScan(header: seq<string>, line: seq<string>, cols: seq<nat>, scores: bool): (r: Scan)
    ensures forall i :: 0 <= i < |r.starts| ==> r.starts[i] in cols
    ensures forall i :: 0 <= i < |r.starts| ==>
              r.starts[i] < |header| && r.starts[i] < |line| && (scores ==> r.starts[i] + 1 < |line|)
    ensures scores ==> forall i :: 0 <= i < |r.starts| ==> line[r.starts[i]] != ""
    decreases |cols|
  {
    if cols == [] then Scan([], false)
    else
      var c := cols[0];
      if c >= |line| then Scan([], true)
      else if scores && line[c] == "" then ColumnScan(header, line, cols[1..], scores)
      else if c >= |header| || (scores && c + 1 >= |line|) then Scan([], true)
      else
        var rest := ColumnScan(header, line, cols[1..], scores);
        Scan([c] + rest.starts, rest.aborted)
  }

  /** One column taken: the scan of `cols` is its first column followed by the
      scan of the rest. */
  lemma ColumnScanNext(header: seq<string>, line: seq<string>, cols: seq<nat>, scores: bool, done: seq<nat>)
    requires cols != [] && cols[0] < |line| && cols[0] < |header|
    requires scores ==> line[cols[0]] != "" && cols[0] + 1 < |line|
    ensures var r, rest := ColumnScan(header, line, cols, scores), ColumnScan(header, line, cols[1..], scores);
            Scan(done + r.starts, r.aborted) == Scan((done + [cols[0]]) + rest.starts, rest.aborted)
  {
    assert done + ([cols[0]] + ColumnScan(header, line, cols[1..], scores).starts)
           == (done + [cols[0]]) + ColumnScan(header, line, cols[1..], scores).starts;
  }

  /** Some column of `cols` lies past the header or the row. */
  predicate ColumnOutside(header: seq<string>, line: seq<string>, cols: seq<nat>) {
    exists i :: 0 <= i < |cols| && (cols[i] >= |header| || cols[i] >= |line|)
  }

  /** Without `scores`, a scan that does not throw visits every column, and it
      throws exactly when some column lies past the header or the row. */
  lemma {:induction false} ColumnScanAll(header: seq<string>, line: seq<string>, cols: seq<nat>)
    ensures var r := ColumnScan(header, line, cols, false);
            (r.aborted <==> ColumnOutside(header, line, cols)) && (!r.aborted ==> r.starts == cols)
    decreases |cols|
  {
    if cols != [] {
      ColumnScanAll(header, line, cols[1..]);
      if cols[0] < |header| && cols[0] < |line| {
        ColumnOutsideTail(header, line, cols);
      } else {
        assert ColumnScan(header, line, cols, false).aborted;
        assert ColumnOutside(header, line, cols) by {
          assert cols[0] >= |header| || cols[0] >= |line|;
        }
      }
    }
  }

  /** A first column inside the header and the row leaves the question to the rest. */
  lemma ColumnOutsideTail(header: seq<string>, line: seq<string>, cols: seq<nat>)
    requires cols != [] && cols[0] < |header| && cols[0] < |line|
    ensures ColumnOutside(header, line, cols) <==> ColumnOutside(header, line, cols[1..])
  {
    if ColumnOutside(header, line, cols) {
      var i :| 0 <= i < |cols| && (cols[i] >= |header| || cols[i] >= |line|);
      assert cols[1..][i - 1] == cols[i];
    }
    if ColumnOutside(header, line, cols[1..]) {
      var i :| 0 <= i < |cols[1..]| && (cols[1..][i] >= |header| || cols[1..][i] >= |line|);
      assert cols[i + 1] == cols[1..][i];
    }
  }

  /** With `scores`, every non-empty score cell in range becomes a record, in
      column order, and nothing else does. */
  lemma {:induction false} ColumnScanScores(header: seq<string>, line: seq<string>, cols: seq<nat>)
    requires forall i :: 0 <= i < |cols| ==> cols[i] + 1 < |line| && cols[i] < |header|
    ensures var r := ColumnScan(header, line, cols, true);
            !r.aborted && r.starts == Filled(line, cols)
    decreases |cols|
  {
    if cols != [] {
      assert forall i :: 0 <= i < |cols| - 1 ==> cols[1..][i] == cols[i + 1];
      ColumnScanScores(header, line, cols[1..]);
    }
  }

  /** The columns whose cell is not empty, in order. */
  function Filled(line: seq<string>, cols: seq<nat>): seq<nat>
    requires forall i :: 0 <= i < |cols| ==> cols[i] < |line|
    decreases |cols|
  {
    if cols == [] then []
    else
      assert forall i :: 0 <= i < |cols| - 1 ==> cols[1..][i] == cols[i + 1];
      (if line[cols[0]] == "" then [] else [cols[0]]) + Filled(line, cols[1..])
  }

  // ---------------------------------------------------------------------
  // Layouts whose rows update the referral values the converter carries
  // from row to row (its instance fields): Bradford, Lewisham, Sunderland.

  /** A Bradford patient row sets age and locality; the other referral values
      are those carried over. */
  function BradfordPatientRow(carried: ReferralFields, line: seq<string>): Row<ReferralFields> {
    if |line| == 0 then Abort
    else if BlankRow(line) then Skip
    else if |line| < 6 then Abort
    else Use(carried.(age := Some(line[3]), locality := Some(line[5])))
  }

  /** A Bradford contact row sets the referral's dates, source, urgency,
      discharge reason, outcome and lifetime count. */
  function BradfordContactRow(carried: ReferralFields, line: seq<string>): Row<ReferralFields> {
    if |line| == 0 then Abort
    else if BlankRow(line) then Skip
    else if |line| < 15 then Abort
    else Use(carried.(referralDate := Some(line[2]), assessmentDate := Some(line[3]),
                      firstTreatmentDate := Some(line[4]), dischargeDate := Some(line[5]),
                      source := Some(line[6]), urgency := Some(line[7]), dischargeReason := Some(line[9]),
                      outcome := Some(line[10]), cumulativeCAMHS := Some(line[11])))
  }

  /** The referral a Bradford contact row passes on: the carried values with
      no diagnosis and no triage date. */
  function BradfordContactReferral(carried: ReferralFields): ReferralFields {
    carried.(diagnosis := None, triageDate := None)
  }

  /** The contact of a Bradford contact row: date, outcome and type. */
  function BradfordContact(line: seq<string>): ContactFields
    requires |line| >= 15
  {
    ContactFields(None, None, Some(line[12]), None, Some(line[14]), None, Some(line[13]), None, None)
  }

  /** A referral first met in a Bradford contact file takes the age and
      locality of the last patient row read before it. */
  lemma BradfordContactKeepsCarriedAge(carried: ReferralFields, line: seq<string>)
    requires BradfordContactRow(carried, line).Use?
    ensures var f := BradfordContactReferral(BradfordContactRow(carried, line).value);
            f.age == carried.age && f.locality == carried.locality
            && f.diagnosis.None? && f.triageDate.None?
            && f.referralDate == Some(line[2]) && f.cumulativeCAMHS == Some(line[11])
  {
  }

  /** A Lewisham patient row: rows shorter than 17 cells are skipped, rows of
      17 to 22 cells throw (cells up to 22 are read), and a date cell made only
      of spaces throws. */
  function LewishamPatientRow(carried: ReferralFields, line: seq<string>): Row<ReferralFields> {
    if |line| == 0 then Abort
    else if BlankRow(line) then Skip
    else if |line| < 2 then Abort
    else if |line| < 17 then Skip
    else if |line| < 23 || CleanDate(line[10]).Throws? || CleanDate(line[6]).Throws? then Abort
    else Use(carried.(diagnosis := Some(line[4]), age := Some(line[5]),
                      dischargeDate := CleanDate(line[10]).value, source := Some(line[11]),
                      urgency := Some(line[12]), locality := Some(line[13]),
                      referralDate := CleanDate(line[6]).value, outcome := Some(line[15]),
                      cumulativeCAMHS := Some(line[18])))
  }

  /** The contact of a Lewisham patient row; attendance joins columns 20 and 21. */
  function LewishamContact(line: seq<string>): ContactFields
    requires |line| >= 23
  {
    ContactFields(None, None, Some(line[19]), None, Some(line[22]), Some(line[20] + "-" + line[21]),
                  Some(line[15]), None, None)
  }

  /** The guard `line.length < 17` does not cover the cells read: a row of 17
      to 22 cells throws, and a row of 23 or more with well-formed dates is used. */
  lemma LewishamRowLengths(carried: ReferralFields, line: seq<string>)
    requires |line| > 0 && line[0] != ""
    ensures |line| < 2 ==> LewishamPatientRow(carried, line).Abort?
    ensures 2 <= |line| < 17 ==> LewishamPatientRow(carried, line).Skip?
    ensures 17 <= |line| < 23 ==> LewishamPatientRow(carried, line).Abort?
    ensures |line| >= 23 ==> (LewishamPatientRow(carried, line).Use? <==>
              !CleanDate(line[10]).Throws? && !CleanDate(line[6]).Throws?)
  {
  }

  /** A Lewisham outcome row: episode, rating date, rating type (column 5) and
      score (column 4). */
  function LewishamOutcomeRow(line: seq<string>): Row<seq<(string, Option<string>)>> {
    if |line| == 0 then Abort
    else if BlankRow(line) then Skip
    else if |line| < 6 then Abort
    else Use(EpisodeOutcomeAttrs(Some(line[2]), Some(line[3]), Some(line[5]), Some(line[4])))
  }

  /** A Sunderland data row: every referral value but the first treatment
      date, which stays as carried; age and lifetime count go through the
      identifier cleaner. */
  function SunderlandDataRow(carried: ReferralFields, line: seq<string>): Row<ReferralFields> {
    if |line| == 0 then Abort
    else if BlankRow(line) then Skip
    else if |line| < 16 then Abort
    else Use(carried.(age := CleanIdentifier(line[2]), locality := Some(line[3]), diagnosis := Some(line[6]),
                      urgency := Some(line[7]), source := Some(line[8]), outcome := Some(line[9]),
                      referralDate := Some(line[10]), triageDate := Some(line[11]),
                      assessmentDate := Some(line[12]), dischargeDate := Some(line[13]),
                      dischargeReason := Some(line[14]), cumulativeCAMHS := CleanIdentifier(line[15])))
  }

  /** A Sunderland row never sets the first treatment date. */
  lemma SunderlandKeepsFirstTreatment(carried: ReferralFields, line: seq<string>)
    requires SunderlandDataRow(carried, line).Use?
    ensures SunderlandDataRow(carried, line).value.firstTreatmentDate == carried.firstTreatmentDate
    ensures SunderlandDataRow(carried, line).value.age.None? <==> Contains(line[2], "NULL")
  {
  }

  /** A Sunderland outcome row yields its measure and measure type. */
  function SunderlandOutcomeRow(line: seq<string>): Row<(Option<string>, Option<string>)> {
    if |line| == 0 then Abort
    else if BlankRow(line) then Skip
    else if |line| < 6 then Abort
    else Use((Some(line[4]), Some(line[5])))
  }

  // ---------------------------------------------------------------------
  // The generic contact file (`processContact`), whose locals live across rows.

  /** The local variables of `processContact`. */
  datatype ContactLocals = ContactLocals(patientId: Option<string>, referralId: Option<string>, fields: ContactFields)

  const NoContactLocals := ContactLocals(None, None, ContactFields(None, None, None, None, None, None, None, None, None))

  /** The column layout chosen by the dataset name. */
  datatype ContactLayout = WorcesterLayout | NeneLayout | StockportLayout | GenericLayout

  function LayoutOf(dataSet: string): ContactLayout {
    if Contains(dataSet, "Worcester") then WorcesterLayout
    else if Contains(dataSet, "Nene") then NeneLayout
    else if Contains(dataSet, "Stockport") then StockportLayout
    else GenericLayout
  }

  /** `line[i]` when the row has it, otherwise the value kept from before. */
  function CellOr(line: seq<string>, i: nat, kept: Option<string>): Option<string> {
    if i < |line| then Some(line[i]) else kept
  }

  /** The generic assignments, in order, up to the end of the row. */
  function GenericFill(l: ContactLocals, line: seq<string>): ContactLocals {
    var f := l.fields;
    l.(fields := f.(contactId := CellOr(line, 2, f.contactId), ordinal := CellOr(line, 3, f.ordinal),
                    contactDate := CellOr(line, 4, f.contactDate), urgency := CellOr(line, 5, f.urgency),
                    contactType := if 6 < |line| then CleanValue(line[6]) else f.contactType,
                    attendance := CellOr(line, 7, f.attendance), team := CellOr(line, 8, f.team),
                    tier := CellOr(line, 9, f.tier)))
  }

  /** What `processContact` does with one row: the locals after it, and whether
      the patient check and `createContact` follow. A short Worcester,
      Nene or Stockport row throws; a short generic row is caught and skipped
      with the assignments made before the missing cell kept. */
  function ContactStep(layout: ContactLayout, l: ContactLocals, line: seq<string>): Row<ContactLocals> {
    match layout
    case WorcesterLayout =>
      if |line| < 8 then Abort
      else Use(l.(referralId := Some(line[0]),
                  fields := l.fields.(contactId := Some(line[2]), contactDate := Some(line[3]),
                                      ordinal := Some(line[4]), contactType := CleanValue(line[5]),
                                      attendance := Some(line[6]), team := Some(line[7]))))
    case NeneLayout =>
      if |line| < 6 || CleanDate(line[3]).Throws? then Abort
      else Use(ContactLocals(Some(line[0]), Some(line[1]),
                             l.fields.(contactDate := CleanDate(line[3]).value,
                                       contactType := CleanValue(line[4]), team := Some(line[5]))))
    case StockportLayout =>
      if |line| < 8 then Abort
      else Use(ContactLocals(Some(line[0]), Some(line[1]),
                             l.fields.(contactId := CleanIdentifier(line[2]), contactDate := Some(line[3]),
                                       urgency := Some(line[4]), contactType := CleanValue(line[6]),
                                       attendance := Some(line[5]), team := Some(line[7]))))
    case GenericLayout =>
      if |line| < 2 then Abort
      else if |line| < 10 then Skip
      else Use(GenericFill(ContactLocals(Some(line[0]), Some(line[1]), l.fields), line))
  }

  /** The locals after a row, whatever the step did with it. */
  function LocalsAfter(layout: ContactLayout, l: ContactLocals, line: seq<string>): ContactLocals {
    match ContactStep(layout, l, line)
    case Use(l2) => l2
    case Skip => if layout == GenericLayout && |line| >= 2
                 then GenericFill(ContactLocals(Some(line[0]), Some(line[1]), l.fields), line) else l
    case Abort => l
  }

  /** The `createContact` calls of a contact file and whether it throws. A row
      reaches `createContact` only when its patient id is a cached patient
      (`known`); a null dataset throws on the first row. */
  datatype ContactRun = ContactRun(calls: seq<ContactLocals>, aborted: bool)

  /** The `createContact` call a row makes, if any: a row the step uses
      whose patient id is a cached patient. */
  function RowCalls(layout: ContactLayout, l: ContactLocals, line: seq<string>, known: set<Option<string>>)
    : seq<ContactLocals>
  {
    var step := ContactStep(layout, l, line);
    if step.Use? && step.value.patientId in known then [step.value] else []
  }

  function ContactCalls(layout: Option<ContactLayout>, l: ContactLocals, rows: seq<seq<string>>,
                        known: set<Option<string>>): ContactRun
    decreases |rows|
  {
    if rows == [] then ContactRun([], false)
    else if layout.None? || ContactStep(layout.value, l, rows[0]).Abort? then ContactRun([], true)
    else
      var rest := ContactCalls(layout, LocalsAfter(layout.value, l, rows[0]), rows[1..], known);
      ContactRun(RowCalls(layout.value, l, rows[0], known) + rest.calls, rest.aborted)
  }

  /** A whole contact file: the header row, then the rows; an empty file
      throws at its header. */
  function ContactFileRun(layout: Option<ContactLayout>, file: seq<seq<string>>, known: set<Option<string>>)
    : ContactRun
  {
    if file == [] then ContactRun([], true) else ContactCalls(layout, NoContactLocals, file[1..], known)
  }

  /** The calls from row `i` on: row `i`'s own, then the rest's. */
  lemma ContactCallsFrom(layout: Option<ContactLayout>, l: ContactLocals, rows: seq<seq<string>>, i: nat,
                         known: set<Option<string>>)
    requires i <= |rows|
    ensures i == |rows| ==> ContactCalls(layout, l, rows[i..], known) == ContactRun([], false)
    ensures i < |rows| && (layout.None? || ContactStep(layout.value, l, rows[i]).Abort?) ==>
              ContactCalls(layout, l, rows[i..], known) == ContactRun([], true)
    ensures i < |rows| && layout.Some? && !ContactStep(layout.value, l, rows[i]).Abort? ==>
              var rest := ContactCalls(layout, LocalsAfter(layout.value, l, rows[i]), rows[i + 1..], known);
              ContactCalls(layout, l, rows[i..], known)
              == ContactRun(RowCalls(layout.value, l, rows[i], known) + rest.calls, rest.aborted)
  {
    if i < |rows| {
      assert rows[i..][1..] == rows[i + 1..];
    }
  }

  /** The loop of `processContact` after `done` calls: the run from row `i`
      on extends them, ends them, or is cut short by row `i`. */
  lemma ContactRunAdvance(layout: Option<ContactLayout>, l: ContactLocals, rows: seq<seq<string>>, i: nat,
                          known: set<Option<string>>, done: seq<ContactLocals>, total: ContactRun)
    requires i <= |rows|
    requires var rest := ContactCalls(layout, l, rows[i..], known);
             total == ContactRun(done + rest.calls, rest.aborted)
    ensures i == |rows| ==> total == ContactRun(done, false)
    ensures i < |rows| && (layout.None? || ContactStep(layout.value, l, rows[i]).Abort?) ==>
              total == ContactRun(done, true)
    ensures i < |rows| && layout.Some? && !ContactStep(layout.value, l, rows[i]).Abort? ==>
              var rest := ContactCalls(layout, LocalsAfter(layout.value, l, rows[i]), rows[i + 1..], known);
              total == ContactRun((done + RowCalls(layout.value, l, rows[i], known)) + rest.calls, rest.aborted)
  {
    ContactCallsFrom(layout, l, rows, i, known);
    if i < |rows| && layout.Some? && !ContactStep(layout.value, l, rows[i]).Abort? {
      var rest := ContactCalls(layout, LocalsAfter(layout.value, l, rows[i]), rows[i + 1..], known);
      var more := RowCalls(layout.value, l, rows[i], known);
      assert done + (more + rest.calls) == (done + more) + rest.calls;
    } else {
      assert done + [] == done;
    }
  }

  /** A Worcester row never sets the patient id, so a Worcester contact file
      whose starting patient id is not a cached patient creates no contact. */
  lemma {:induction false} WorcesterCreatesNoContact(l: ContactLocals, rows: seq<seq<string>>, known: set<Option<string>>)
    requires l.patientId !in known
    ensures ContactCalls(Some(WorcesterLayout), l, rows, known).calls == []
    decreases |rows|
  {
    if rows != [] {
      WorcesterCreatesNoContact(LocalsAfter(WorcesterLayout, l, rows[0]), rows[1..], known);
    }
  }

  /** The generic layout: each call carries exactly the cells of one full row
      of the file, so what a short, skipped row assigned never reaches a contact. */
  lemma {:induction false} GenericCallsAreWholeRows(l: ContactLocals, rows: seq<seq<string>>, known: set<Option<string>>)
    ensures forall c :: c in ContactCalls(Some(GenericLayout), l, rows, known).calls ==>
              exists k :: 0 <= k < |rows| && |rows[k]| >= 10 && c == WholeRow(rows[k], l.fields.outcome)
    decreases |rows|
  {
    if rows != [] {
      var next := LocalsAfter(GenericLayout, l, rows[0]);
      GenericCallsAreWholeRows(next, rows[1..], known);
      assert next.fields.outcome == l.fields.outcome;
      var calls := ContactCalls(Some(GenericLayout), l, rows, known).calls;
      var rest := ContactCalls(Some(GenericLayout), next, rows[1..], known).calls;
      forall c | c in calls
        ensures exists k :: 0 <= k < |rows| && |rows[k]| >= 10 && c == WholeRow(rows[k], l.fields.outcome)
      {
        if c in rest {
          var k' :| 0 <= k' < |rows[1..]| && |rows[1..][k']| >= 10 && c == WholeRow(rows[1..][k'], next.fields.outcome);
          assert rows[1..][k'] == rows[k' + 1];
        } else {
          assert c == WholeRow(rows[0], l.fields.outcome);
        }
      }
    }
  }

  /** The locals of a call made from a full generic row. */
  function WholeRow(line: seq<string>, outcome: Option<string>): ContactLocals
    requires |line| >= 10
  {
    ContactLocals(Some(line[0]), Some(line[1]),
                  ContactFields(Some(line[2]), Some(line[3]), Some(line[4]), Some(line[5]), CleanValue(line[6]),
                                Some(line[7]), outcome, Some(line[8]), Some(line[9])))
  }

  // ---------------------------------------------------------------------
  // Which pipelines a file name selects.

  datatype Pipeline =
    | WarringtonFile | BradfordFile | LewishamFile | HertfordshireFile | ManchesterFile | SunderlandFile
    | PatientFile | ContactFile | OutcomeFile | BexleyFile | CamdenFile | LutonFile | NorfolkFile | StokeFile

  /** The site names that have a pipeline of their own, tested in this order. */
  const Exclusive: seq<(string, Pipeline)> := [
    ("Warrington", WarringtonFile), ("Bradford", BradfordFile), ("Lewisham", LewishamFile),
    ("Hertfordshire", HertfordshireFile), ("Manchester", ManchesterFile), ("Sunderland", SunderlandFile)
  ]

  /** The other pipelines, run in this order, each when its name test holds. */
  const Shared: seq<(seq<string>, Pipeline)> := [
    (["Patient", "Referral"], PatientFile), (["Contact", "Activity"], ContactFile), (["Outcome"], OutcomeFile),
    (["Bexley"], BexleyFile), (["Camden"], CamdenFile), (["Luton"], LutonFile), (["Norfolk"], NorfolkFile),
    (["Stoke"], StokeFile)
  ]

  /** No pipeline appears twice among the shared ones. */
  lemma SharedDistinct()
    ensures forall i, j :: 0 <= i < j < |Shared| ==> Shared[i].1 != Shared[j].1
  {
  }

  predicate MentionsAny(fileName: string, words: seq<string>) {
    exists i :: 0 <= i < |words| && Contains(fileName, words[i])
  }

  function FirstExclusive(fileName: string, table: seq<(string, Pipeline)>): Option<Pipeline> {
    if table == [] then None
    else if Contains(fileName, table[0].0) then Some(table[0].1)
    else FirstExclusive(fileName, table[1..])
  }

  function SharedRun(fileName: string, table: seq<(seq<string>, Pipeline)>): seq<Pipeline> {
    if table == [] then []
    else (if MentionsAny(fileName, table[0].0) then [table[0].1] else []) + SharedRun(fileName, table[1..])
  }

  /** The pipelines `process` runs on a file, in order: none unless the name
      ends with `csv` (case-sensitively); the first site with a pipeline of its
      own; otherwise every shared pipeline whose name test holds. */
  function Pipelines(fileName: string): seq<Pipeline> {
    if !EndsWith(fileName, "csv") then []
    else
      match FirstExclusive(fileName, Exclusive)
      case Some(p) => [p]
      case None => SharedRun(fileName, Shared)
  }

  /** The shared pipelines selected are exactly those whose name test holds,
      in table order. */
  lemma {:induction false} SharedRunExactly(fileName: string, table: seq<(seq<string>, Pipeline)>)
    requires forall i, j :: 0 <= i < j < |table| ==> table[i].1 != table[j].1
    ensures forall i :: 0 <= i < |table| ==>
              (table[i].1 in SharedRun(fileName, table) <==> MentionsAny(fileName, table[i].0))
    ensures forall p :: p in SharedRun(fileName, table) ==> exists i :: 0 <= i < |table| && table[i].1 == p
    decreases |table|
  {
    if table != [] {
      var rest := table[1..];
      assert forall i, j :: 0 <= i < j < |rest| ==> rest[i].1 != rest[j].1 by {
        forall i, j | 0 <= i < j < |rest| ensures rest[i].1 != rest[j].1 {
          assert rest[i] == table[i + 1] && rest[j] == table[j + 1];
        }
      }
      SharedRunExactly(fileName, rest);
      forall i | 0 <= i < |table|
        ensures table[i].1 in SharedRun(fileName, table) <==> MentionsAny(fileName, table[i].0)
      {
        if i > 0 {
          assert table[i] == rest[i - 1];
          if table[i].1 in SharedRun(fileName, rest) {
          } else {
            assert table[i].1 != table[0].1;
          }
        } else {
          assert forall k :: 0 <= k < |rest| ==> rest[k].1 != table[0].1 by {
            forall k | 0 <= k < |rest| ensures rest[k].1 != table[0].1 {
              assert rest[k] == table[k + 1];
            }
          }
        }
      }
      forall p | p in SharedRun(fileName, table)
        ensures exists i :: 0 <= i < |table| && table[i].1 == p
      {
        if p != table[0].1 {
          var k :| 0 <= k < |rest| && rest[k].1 == p;
          assert rest[k] == table[k + 1];
        }
      }
    }
  }

  /** The first exclusive site found decides, and no earlier one was found. */
  lemma {:induction false} FirstExclusiveFound(fileName: string, table: seq<(string, Pipeline)>)
    ensures FirstExclusive(fileName, table).None? <==>
              forall i :: 0 <= i < |table| ==> !Contains(fileName, table[i].0)
    ensures FirstExclusive(fileName, table).Some? ==>
              exists i :: 0 <= i < |table| && Contains(fileName, table[i].0)
                && FirstExclusive(fileName, table).value == table[i].1
                && forall j :: 0 <= j < i ==> !Contains(fileName, table[j].0)
    decreases |table|
  {
    if table != [] {
      FirstExclusiveFound(fileName, table[1..]);
      if !Contains(fileName, table[0].0) {
        assert forall i :: 1 <= i < |table| ==> table[i] == table[1..][i - 1];
        if FirstExclusive(fileName, table).Some? {
          var i :| 0 <= i < |table[1..]| && Contains(fileName, table[1..][i].0)
                   && FirstExclusive(fileName, table).value == table[1..][i].1
                   && forall j :: 0 <= j < i ==> !Contains(fileName, table[1..][j].0);
          assert forall j :: 1 <= j < i + 1 ==> table[j] == table[1..][j - 1];
        }
      }
    }
  }

  /** A file name ending in `csv` that names no exclusive site runs exactly the
      shared pipelines whose name test holds; a file name naming one runs that
      site's pipeline only. */
  lemma PipelinesSelection(fileName: string)
    requires EndsWith(fileName, "csv")
    ensures (forall i :: 0 <= i < |Exclusive| ==> !Contains(fileName, Exclusive[i].0)) ==>
              forall i :: 0 <= i < |Shared| ==>
                (Shared[i].1 in Pipelines(fileName) <==> MentionsAny(fileName, Shared[i].0))
    ensures (exists i :: 0 <= i < |Exclusive| && Contains(fileName, Exclusive[i].0)) ==>
              |Pipelines(fileName)| == 1
  {
    FirstExclusiveFound(fileName, Exclusive);
    SharedDistinct();
    SharedRunExactly(fileName, Shared);
  }

  /** The extension test is case-sensitive: an upper-case `.CSV` file is not read. */
  lemma UpperCaseCsvIgnored(fileName: string)
    requires fileName == "CAMPET.CSV"
    ensures Pipelines(fileName) == []
  {
    NotEndsWithByLast(fileName, "csv");
  }
}
