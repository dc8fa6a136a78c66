/**
  The items one row of a site file stores after its patient and referral,
  and the file-level view of a row loop: which rows throw, and the referral
  values the converter carries from one row to the next.
 */
module PorLines {
  import opened JavaText
  import opened Cleaners
  import opened Items
  import opened ItemStore
  import opened PorItems
  import opened PorRows

  /** Every slot at `starts` lies inside the row. */
  predicate SlotsFit(kind: SlotKind, line: seq<string>, starts: seq<nat>) {
    forall i :: 0 <= i < |starts| ==> starts[i] + SlotWidth(kind) <= |line|
  }

  lemma SlotItemsSnoc(kind: SlotKind, line: seq<string>, starts: seq<nat>, j: nat, outcome: Option<string>,
                      patient: Option<ItemId>, referral: Option<ItemId>)
    requires SlotsFit(kind, line, starts) && j + SlotWidth(kind) <= |line|
    ensures SlotsFit(kind, line, starts + [j])
    ensures SlotItems(kind, line, starts + [j], outcome, patient, referral)
            == SlotItems(kind, line, starts, outcome, patient, referral)
               + [ContactItem(SlotContact(kind, line, j, outcome), patient, referral)]
  {
  }

  /** The contacts stored from the slots at `starts`. */
  function SlotItems(kind: SlotKind, line: seq<string>, starts: seq<nat>, outcome: Option<string>,
                     patient: Option<ItemId>, referral: Option<ItemId>): seq<Item>
    requires SlotsFit(kind, line, starts)
  {
    seq(|starts|, i requires 0 <= i < |starts| =>
      ContactItem(SlotContact(kind, line, starts[i], outcome), patient, referral))
  }

  /** Every column of `cols` has a header and a cell. */
  predicate ExtrasFit(header: seq<string>, line: seq<string>, cols: seq<nat>) {
    forall i :: 0 <= i < |cols| ==> cols[i] < |header| && cols[i] < |line|
  }

  lemma ExtraItemsSnoc(header: seq<string>, line: seq<string>, cols: seq<nat>, c: nat,
                       patient: Option<ItemId>, referral: Option<ItemId>)
    requires ExtrasFit(header, line, cols) && c < |header| && c < |line|
    ensures ExtrasFit(header, line, cols + [c])
    ensures ExtraItems(header, line, cols + [c], patient, referral)
            == ExtraItems(header, line, cols, patient, referral)
               + [AdditionalItem(AdditionalDataClass, Some(header[c]), Some(line[c]), patient, referral)]
  {
  }

  /** The AdditionalData items stored from the columns `cols`. */
  function ExtraItems(header: seq<string>, line: seq<string>, cols: seq<nat>,
                      patient: Option<ItemId>, referral: Option<ItemId>): seq<Item>
    requires ExtrasFit(header, line, cols)
  {
    seq(|cols|, i requires 0 <= i < |cols| =>
      AdditionalItem(AdditionalDataClass, Some(header[cols[i]]), Some(line[cols[i]]), patient, referral))
  }

  /** The Diagnostic items stored from the score columns `cols`: the header
      names the score, the cell holds its date and the next cell its value. */
  function ScoreItems(header: seq<string>, line: seq<string>, cols: seq<nat>, measure: Option<string>,
                      measureType: Option<string>, patient: Option<ItemId>, referral: Option<ItemId>): seq<Item>
    requires ScoresFit(header, line, cols)
  {
    seq(|cols|, i requires 0 <= i < |cols| => ScoreItem(header, line, cols[i], measure, measureType, patient, referral))
  }

  /** Every score column of `cols` has a header, a date cell and a value cell. */
  predicate ScoresFit(header: seq<string>, line: seq<string>, cols: seq<nat>) {
    forall i :: 0 <= i < |cols| ==> cols[i] < |header| && cols[i] + 1 < |line|
  }

  /** The score loop before column `i` of `cols`: the scores `done` taken so
      far, then the scan `rest` of the remaining columns, make the whole scan. */
  predicate ScanSoFar(header: seq<string>, line: seq<string>, cols: seq<nat>, i: nat, done: seq<nat>,
                      rest: Scan, scan: Scan)
  {
    i <= |cols| && rest == ColumnScan(header, line, cols[i..], true)
    && scan == Scan(done + rest.starts, rest.aborted) && ScoresFit(header, line, done)
  }

  /** The Diagnostic of the score at column `c`. */
  function ScoreItem(header: seq<string>, line: seq<string>, c: nat, measure: Option<string>,
                     measureType: Option<string>, patient: Option<ItemId>, referral: Option<ItemId>): Item
    requires c < |header| && c + 1 < |line|
  {
    DiagnosticItem(MeasuredDiagnosticAttrs(measure, measureType, Some(line[c]), Some(header[c]), Some(line[c + 1])),
                   patient, referral)
  }

  lemma ScoreItemsSnoc(header: seq<string>, line: seq<string>, cols: seq<nat>, c: nat, measure: Option<string>,
                       measureType: Option<string>, patient: Option<ItemId>, referral: Option<ItemId>)
    requires ScoresFit(header, line, cols) && c < |header| && c + 1 < |line|
    ensures ScoresFit(header, line, cols + [c])
    ensures ScoreItems(header, line, cols + [c], measure, measureType, patient, referral)
            == ScoreItems(header, line, cols, measure, measureType, patient, referral)
               + [ScoreItem(header, line, c, measure, measureType, patient, referral)]
  {
  }

  /** Every record stores an item of one of `classes`. */
  predicate StoredAre(records: seq<Stored>, classes: set<string>) {
    forall i :: 0 <= i < |records| ==> records[i].item.className in classes
  }

  /** Every item is of one of `classes`. */
  predicate ItemsAre(xs: seq<Item>, classes: set<string>) {
    forall i :: 0 <= i < |xs| ==> xs[i].className in classes
  }

  lemma ItemsAreWithin(xs: seq<Item>, classes: set<string>, more: set<string>)
    requires ItemsAre(xs, classes) && classes <= more
    ensures ItemsAre(xs, more)
  {
  }

  lemma ItemsAreJoin(xs: seq<Item>, ys: seq<Item>, a: set<string>, b: set<string>)
    requires ItemsAre(xs, a) && ItemsAre(ys, b)
    ensures ItemsAre(xs + ys, a + b)
  {
  }

  lemma ExtraItemsAre(header: seq<string>, line: seq<string>, cols: seq<nat>,
                      patient: Option<ItemId>, referral: Option<ItemId>)
    requires ExtrasFit(header, line, cols)
    ensures ItemsAre(ExtraItems(header, line, cols, patient, referral), {AdditionalDataClass})
  {
  }

  lemma SlotItemsAre(kind: SlotKind, line: seq<string>, starts: seq<nat>, outcome: Option<string>,
                     patient: Option<ItemId>, referral: Option<ItemId>)
    requires SlotsFit(kind, line, starts)
    ensures ItemsAre(SlotItems(kind, line, starts, outcome, patient, referral), {"Contact"})
  {
  }

  lemma RecordsAre(first: ItemId, xs: seq<Item>, classes: set<string>)
    requires ItemsAre(xs, classes)
    ensures StoredAre(Records(first, xs), classes)
  {
  }

  lemma StoredAreAppend(s: seq<Stored>, t: seq<Stored>, classes: set<string>)
    requires StoredAre(s, classes) && StoredAre(t, classes)
    ensures StoredAre(s + t, classes)
  {
  }

  // ---------------------------------------------------------------------
  // What a row stores after its patient and referral.

  /** A Camden row throws when a column it copies lies past the header or
      the row, or when a contact slot is cut short by the end of the row. */
  predicate CamdenAborts(header: seq<string>, line: seq<string>) {
    ColumnScan(header, line, CamdenExtras, false).aborted || SlotScan(line, 24, |header|, 4, false).aborted
  }

  /** What a Camden row stores: its AdditionalData columns, then its contact
      slots (up to the width of the header), each contact taking the
      referral outcome; the items stored before a throw when it throws. */
  function CamdenStored(header: seq<string>, line: seq<string>, p: Option<ItemId>, r: Option<ItemId>): seq<Item>
    requires |line| >= 24
  {
    var e := ColumnScan(header, line, CamdenExtras, false);
    var extras := ExtraItems(header, line, e.starts, p, r);
    if e.aborted then extras
    else
      SlotScanStarts(line, 24, |header|, 4, false);
      extras + SlotItems(CamdenSlots, line, SlotScan(line, 24, |header|, 4, false).starts, Some(line[8]), p, r)
  }

  /** A Camden row stores AdditionalData items and contacts only. */
  lemma CamdenStoredClasses(header: seq<string>, line: seq<string>, p: Option<ItemId>, r: Option<ItemId>)
    requires |line| >= 24
    ensures ItemsAre(CamdenStored(header, line, p, r), {"Contact", AdditionalDataClass})
  {
    var e := ColumnScan(header, line, CamdenExtras, false);
    var extras := ExtraItems(header, line, e.starts, p, r);
    ExtraItemsAre(header, line, e.starts, p, r);
    if e.aborted {
      ItemsAreWithin(extras, {AdditionalDataClass}, {"Contact", AdditionalDataClass});
    } else {
      SlotScanStarts(line, 24, |header|, 4, false);
      var starts := SlotScan(line, 24, |header|, 4, false).starts;
      SlotItemsAre(CamdenSlots, line, starts, Some(line[8]), p, r);
      ItemsAreJoin(extras, SlotItems(CamdenSlots, line, starts, Some(line[8]), p, r),
                   {AdditionalDataClass}, {"Contact"});
      assert {AdditionalDataClass} + {"Contact"} == {"Contact", AdditionalDataClass};
    }
  }

  predicate StokeAborts(line: seq<string>) {
    SlotScan(line, 17, 317, 6, true).aborted
  }

  /** What a Stoke on Trent row stores: its contact slots, at most fifty. */
  function StokeStored(line: seq<string>, p: Option<ItemId>, r: Option<ItemId>): seq<Item> {
    SlotScanStarts(line, 17, 317, 6, true);
    SlotItems(StokeSlots, line, SlotScan(line, 17, 317, 6, true).starts, None, p, r)
  }

  /** A Stoke on Trent row stores contacts only. */
  lemma StokeStoredClasses(line: seq<string>, p: Option<ItemId>, r: Option<ItemId>)
    ensures ItemsAre(StokeStored(line, p, r), {"Contact"})
  {
  }

  predicate LewishamAborts(header: seq<string>, line: seq<string>) {
    ColumnScan(header, line, LewishamExtras, false).aborted
  }

  /** What a Lewisham patient row stores: its AdditionalData columns, then
      its contact. */
  function LewishamStored(header: seq<string>, line: seq<string>, p: Option<ItemId>, r: Option<ItemId>): seq<Item>
    requires |line| >= 23
  {
    var e := ColumnScan(header, line, LewishamExtras, false);
    var extras := ExtraItems(header, line, e.starts, p, r);
    if e.aborted then extras else extras + [ContactItem(LewishamContact(line), p, r)]
  }

  /** A Lewisham patient row stores AdditionalData items and a contact only. */
  lemma LewishamStoredClasses(header: seq<string>, line: seq<string>, p: Option<ItemId>, r: Option<ItemId>)
    requires |line| >= 23
    ensures ItemsAre(LewishamStored(header, line, p, r), {"Contact", AdditionalDataClass})
  {
    var e := ColumnScan(header, line, LewishamExtras, false);
    var extras := ExtraItems(header, line, e.starts, p, r);
    ExtraItemsAre(header, line, e.starts, p, r);
    ItemsAreWithin(extras, {AdditionalDataClass}, {"Contact", AdditionalDataClass});
    if !e.aborted {
      ItemsAreSnoc(extras, ContactItem(LewishamContact(line), p, r), {"Contact", AdditionalDataClass});
    }
  }

  lemma ItemsAreSnoc(xs: seq<Item>, x: Item, classes: set<string>)
    requires ItemsAre(xs, classes) && x.className in classes
    ensures ItemsAre(xs + [x], classes)
  {
  }

  predicate SunderlandAborts(header: seq<string>, line: seq<string>) {
    ColumnScan(header, line, SunderlandScores, true).aborted
  }

  /** What a Sunderland outcome row stores: one Diagnostic per non-empty score. */
  function SunderlandStored(header: seq<string>, line: seq<string>, measure: Option<string>,
                            measureType: Option<string>, p: Option<ItemId>, r: Option<ItemId>): seq<Item>
  {
    ScoreItems(header, line, ColumnScan(header, line, SunderlandScores, true).starts, measure, measureType, p, r)
  }

  /** A Sunderland outcome row stores Diagnostic items only. */
  lemma SunderlandStoredClasses(header: seq<string>, line: seq<string>, measure: Option<string>,
                                measureType: Option<string>, p: Option<ItemId>, r: Option<ItemId>)
    ensures ItemsAre(SunderlandStored(header, line, measure, measureType, p, r), {"Diagnostic"})
  {
  }

  // ---------------------------------------------------------------------
  // Row loops, file by file.

  /** The row layouts of the site files (Bradford, Lewisham and Sunderland
      pick one of two by the file name). */
  datatype RowKind =
    | CamdenRows | StokeRows | BradfordPatients | BradfordContacts
    | LewishamPatients | LewishamOutcomes | SunderlandData | SunderlandOutcomes

  /** Whether a row throws, given the referral values carried into it. */
  predicate LineAborts(kind: RowKind, carried: ReferralFields, header: seq<string>, line: seq<string>) {
    match kind
    case CamdenRows => CamdenRow(line).Abort? || (CamdenRow(line).Use? && CamdenAborts(header, line))
    case StokeRows => StokeRow(line).Abort? || (StokeRow(line).Use? && StokeAborts(line))
    case BradfordPatients => BradfordPatientRow(carried, line).Abort?
    case BradfordContacts => BradfordContactRow(carried, line).Abort?
    case LewishamPatients =>
      LewishamPatientRow(carried, line).Abort?
      || (LewishamPatientRow(carried, line).Use? && LewishamAborts(header, line))
    case LewishamOutcomes => LewishamOutcomeRow(line).Abort?
    case SunderlandData => SunderlandDataRow(carried, line).Abort?
    case SunderlandOutcomes =>
      SunderlandOutcomeRow(line).Abort?
      || (SunderlandOutcomeRow(line).Use? && SunderlandAborts(header, line))
  }

  /** The referral values carried out of a row that does not throw. */
  function CarriedAfter(kind: RowKind, carried: ReferralFields, line: seq<string>): ReferralFields {
    var row := match kind
      case BradfordPatients => BradfordPatientRow(carried, line)
      case BradfordContacts => BradfordContactRow(carried, line)
      case LewishamPatients => LewishamPatientRow(carried, line)
      case SunderlandData => SunderlandDataRow(carried, line)
      case _ => Skip;
    if row.Use? then row.value else carried
  }

  /** Whether some row of a file throws. */
  predicate RowsAbort(kind: RowKind, carried: ReferralFields, header: seq<string>, rows: seq<seq<string>>)
    decreases |rows|
  {
    rows != [] && (LineAborts(kind, carried, header, rows[0])
                   || RowsAbort(kind, CarriedAfter(kind, carried, rows[0]), header, rows[1..]))
  }

  /** The referral values carried out of a file. */
  function CarriedAfterRows(kind: RowKind, carried: ReferralFields, rows: seq<seq<string>>): ReferralFields
    decreases |rows|
  {
    if rows == [] then carried else CarriedAfterRows(kind, CarriedAfter(kind, carried, rows[0]), rows[1..])
  }

  /** A file's rows from `i` on: row `i`, then the rest with the values it carries out. */
  lemma RowsFrom(kind: RowKind, carried: ReferralFields, header: seq<string>, rows: seq<seq<string>>, i: nat)
    requires i < |rows|
    ensures RowsAbort(kind, carried, header, rows[i..])
            == (LineAborts(kind, carried, header, rows[i])
                || RowsAbort(kind, CarriedAfter(kind, carried, rows[i]), header, rows[i + 1..]))
    ensures CarriedAfterRows(kind, carried, rows[i..])
            == CarriedAfterRows(kind, CarriedAfter(kind, carried, rows[i]), rows[i + 1..])
  {
    assert rows[i..][1..] == rows[i + 1..];
  }

  /** The classes of the items a row stores itself; patients and referrals
      are only ever stored by the flush at the end of a file. */
  function StoredClasses(kind: RowKind): set<string> {
    match kind
    case CamdenRows => {"Contact", AdditionalDataClass}
    case StokeRows => {"Contact"}
    case BradfordPatients => {}
    case BradfordContacts => {"Contact"}
    case LewishamPatients => {"Contact", AdditionalDataClass}
    case LewishamOutcomes => {"ClinicalOutcome"}
    case SunderlandData => {}
    case SunderlandOutcomes => {"Diagnostic"}
  }

  /** The site pipelines that read their rows with one loop. */
  predicate RowPipeline(p: Pipeline) {
    p in {CamdenFile, StokeFile, BradfordFile, LewishamFile, SunderlandFile}
  }

  /** A site file's row layout, chosen by its file name, and whether the
      patients and referrals are flushed after its last row. */
  function FileLayout(p: Pipeline, fileName: string): (RowKind, bool)
    requires RowPipeline(p)
  {
    match p
    case CamdenFile => (CamdenRows, true)
    case StokeFile => (StokeRows, true)
    case BradfordFile =>
      (if Contains(fileName, "Patient") then BradfordPatients else BradfordContacts, Contains(fileName, "Contact"))
    case LewishamFile =>
      (if Contains(fileName, "Patient") then LewishamPatients else LewishamOutcomes, Contains(fileName, "Outcome"))
    case SunderlandFile =>
      (if Contains(fileName, "Data") then SunderlandData else SunderlandOutcomes, Contains(fileName, "Outcome"))
  }
}
