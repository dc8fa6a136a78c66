/**
  The Cambridge and Peterborough converter's files as values: the items it
  builds, what the rows of the demographic, contact and diagnosis files ask
  of the caches, and which file name selects which reader.
 */
module NhsRows {
  import opened JavaText
  import opened Items
  import opened ItemStore

  const DatasetTitle := "Cambridge and Peterborough"
  const SiteType := "accelerator"

  /** Ethnicity and gender are set only when the cell is not empty. */
  function NonEmpty(s: string): Option<string> {
    if s == "" then None else Some(s)
  }

  /** A new Patient: its identifier, the non-empty ethnicity and gender, the
      site, and the current dataset. */
  function PatientItem(patientId: string, ethnicity: string, gender: string, site: string,
                       dataSetRef: Option<ItemId>): Item
  {
    Item("Patient", SetAll(map[], PatientAttrs(patientId, ethnicity, gender, site)),
         if dataSetRef.Some? then map["dataSet" := dataSetRef.value] else map[])
  }

  /** The attribute pairs a new patient is given, in order. */
  function PatientAttrs(patientId: string, ethnicity: string, gender: string, site: string)
    : seq<(string, Option<string>)>
  {
    [("identifier", Some(patientId)), ("ethnicity", NonEmpty(ethnicity)), ("gender", NonEmpty(gender)),
     ("site", Some(site))]
  }

  /** A new patient carries an ethnicity or a gender exactly when its cell is
      not empty, and then carries the cell itself; it carries nothing else
      but its identifier and site. */
  lemma PatientAttributes(patientId: string, ethnicity: string, gender: string, site: string,
                          dataSetRef: Option<ItemId>)
    ensures var attrs := PatientItem(patientId, ethnicity, gender, site, dataSetRef).attrs;
            "identifier" in attrs && attrs["identifier"] == patientId && "site" in attrs && attrs["site"] == site
            && ("ethnicity" in attrs <==> ethnicity != "") && ("gender" in attrs <==> gender != "")
            && (ethnicity != "" ==> attrs["ethnicity"] == ethnicity)
            && (gender != "" ==> attrs["gender"] == gender)
            && forall n :: n in attrs ==> n in {"identifier", "ethnicity", "gender", "site"}
  {
    PatientAttrsMap(patientId, ethnicity, gender, site);
  }

  /** The run of setters that builds a new patient's attributes, written out. */
  lemma PatientAttrsMap(patientId: string, ethnicity: string, gender: string, site: string)
    ensures SetAll(map[], PatientAttrs(patientId, ethnicity, gender, site))
            == SetIfNotNull(SetIfNotNull(map["identifier" := patientId], "ethnicity", NonEmpty(ethnicity)),
                            "gender", NonEmpty(gender))["site" := site]
  {
    var pairs := PatientAttrs(patientId, ethnicity, gender, site);
    var m1 := map["identifier" := patientId];
    var m2 := SetIfNotNull(m1, "ethnicity", NonEmpty(ethnicity));
    var m3 := SetIfNotNull(m2, "gender", NonEmpty(gender));
    assert SetAll(map[], pairs) == SetAll(m1, pairs[1..]);
    assert pairs[1..][1..] == pairs[2..];
    assert SetAll(m1, pairs[1..]) == SetAll(m2, pairs[2..]);
    assert pairs[2..][1..] == pairs[3..];
    assert SetAll(m2, pairs[2..]) == SetAll(m3, pairs[3..]);
    assert pairs[3..][1..] == [];
    assert SetAll(m3, pairs[3..]) == SetAll(m3["site" := site], []);
  }

  /** A new Referral, linked to its patient when one is passed. */
  function ReferralItem(referralId: string, age: string, patient: Option<ItemId>): Item {
    Item("Referral", map["identifier" := referralId, "patientAge" := age], LinkRefs(patient, None))
  }

  /** A new Contact: linked to its patient when cached, never to a referral. */
  function ContactItem(contactDate: string, contactType: string, contactOutcome: string, team: string,
                       patient: Option<ItemId>): Item
  {
    Item("Contact",
         SetAll(map[], [("contactDate", Some(contactDate)), ("contactType", Some(contactType)),
                        ("contactOutcome", Some(contactOutcome)), ("team", Some(team))]),
         LinkRefs(patient, None))
  }

  function DiagnosticItem(assessmentDate: string, observation: string, patient: Option<ItemId>,
                          referral: Option<ItemId>): Item
  {
    Item("Diagnostic", SetAll(map[], [("assessmentDate", Some(assessmentDate)), ("observation", Some(observation))]),
         LinkRefs(patient, referral))
  }

  /** The referral key of a row: patient id, a dash, referral id. */
  function RowKey(line: seq<string>): string
    requires |line| >= 3
  {
    PatRefId(Some(line[1]), Some(line[2]))
  }

  /** The rows a file gives before the first that throws, and whether one threw. */
  datatype Read<R> = Read(rows: seq<R>, aborted: bool)

  // ---------------------------------------------------------------------
  // The demographic file.

  /** The cells of a demographic row that `processDemographic` uses. */
  datatype DemographicRow = DemographicRow(patientId: string, referralId: string, age: string,
                                           ethnicity: string, gender: string)
  {
    /** The referral key: patient id, a dash, referral id. */
    function Key(): string {
      PatRefId(Some(patientId), Some(referralId))
    }
  }

  /** Reading a row's six cells: a shorter row throws. */
  function ParseDemographic(line: seq<string>): Option<DemographicRow> {
    if |line| < 6 then None else Some(DemographicRow(line[1], line[2], line[3], line[4], line[5]))
  }

  /** The rows of a demographic file, in order, up to the first that throws. */
  function ReadDemographic(lines: seq<seq<string>>): Read<DemographicRow>
    decreases |lines|
  {
    if lines == [] then Read([], false)
    else
      var before := ReadDemographic(lines[..|lines| - 1]);
      var row := ParseDemographic(lines[|lines| - 1]);
      if before.aborted then before
      else if row.None? then Read(before.rows, true)
      else Read(before.rows + [row.value], false)
  }

  /** The read stops exactly at a short row, and gives every row before it. */
  lemma {:induction false} ReadDemographicExactly(lines: seq<seq<string>>)
    ensures var r := ReadDemographic(lines);
            (r.aborted <==> exists j :: 0 <= j < |lines| && |lines[j]| < 6)
            && (!r.aborted ==> |r.rows| == |lines|)
            && |r.rows| <= |lines|
            && (forall j :: 0 <= j < |r.rows| ==> ParseDemographic(lines[j]) == Some(r.rows[j]))
    decreases |lines|
  {
    if lines != [] {
      var init := lines[..|lines| - 1];
      ReadDemographicExactly(init);
      assert forall j :: 0 <= j < |init| ==> init[j] == lines[j];
    }
  }

  /** Once a row has thrown, the rows after it are never read. */
  lemma {:induction false} ReadDemographicStops(lines: seq<seq<string>>, i: nat)
    requires i <= |lines| && ReadDemographic(lines[..i]).aborted
    ensures ReadDemographic(lines) == ReadDemographic(lines[..i])
    decreases |lines| - i
  {
    if i < |lines| {
      assert lines[..i + 1][..i] == lines[..i];
      ReadDemographicStops(lines, i + 1);
    } else {
      assert lines[..i] == lines;
    }
  }

  /** The calls the rows make to `createPatient`: the key asked for and the
      patient a miss would create. */
  function PatientCalls(rows: seq<DemographicRow>, dataSetRef: Option<ItemId>): seq<(string, Item)>
    decreases |rows|
  {
    if rows == [] then []
    else
      var r := rows[|rows| - 1];
      PatientCalls(rows[..|rows| - 1], dataSetRef)
      + [(r.patientId, PatientItem(r.patientId, r.ethnicity, r.gender, DatasetTitle, dataSetRef))]
  }

  /** The calls the rows make to `createReferral`: the row's key and the
      referral a miss would create, linked to the patient cached under the
      row's patient id. */
  function ReferralCalls(rows: seq<DemographicRow>, patients: map<string, ItemId>): seq<(string, Item)>
    decreases |rows|
  {
    if rows == [] then []
    else
      var r := rows[|rows| - 1];
      ReferralCalls(rows[..|rows| - 1], patients)
      + [(r.Key(), ReferralItem(r.referralId, r.age, Lookup(patients, r.patientId)))]
  }

  /** More cached patients change no referral a row whose patient was
      already cached would make. */
  lemma {:induction false} ReferralCallsStable(rows: seq<DemographicRow>, patients: map<string, ItemId>,
                                              patients2: map<string, ItemId>)
    requires forall r :: r in rows ==> r.patientId in patients
    requires forall k :: k in patients ==> k in patients2 && patients2[k] == patients[k]
    ensures ReferralCalls(rows, patients2) == ReferralCalls(rows, patients)
    decreases |rows|
  {
    if rows != [] {
      assert forall j :: 0 <= j < |rows| - 1 ==> rows[..|rows| - 1][j] == rows[j];
      ReferralCallsStable(rows[..|rows| - 1], patients, patients2);
    }
  }

  // ---------------------------------------------------------------------
  // The contact file.

  /** The cells of a contact row that `processContact` uses: the referral's
      ids, the nine referral values and the four contact values. */
  datatype ContactRow = ContactRow(patientId: string, referralId: string,
                                   urgency: string, source: string, outcome: string, dischargeReason: string,
                                   referralDate: string, assessmentDate: string, firstTreatmentDate: string,
                                   dischargeDate: string, cumulativeCAMHS: string,
                                   contactDate: string, contactType: string, contactOutcome: string, team: string)
  {
    /** The key of the row's referral, and of its contact. */
    function Key(): string {
      PatRefId(Some(patientId), Some(referralId))
    }

    /** The nine referral attributes the row writes over its referral. */
    function Backfill(): seq<(string, Option<string>)> {
      [("urgency", Some(urgency)), ("source", Some(source)), ("outcome", Some(outcome)),
       ("dischargeReason", Some(dischargeReason)), ("referralDate", Some(referralDate)),
       ("assessmentDate", Some(assessmentDate)), ("firstTreatmentDate", Some(firstTreatmentDate)),
       ("dischargeDate", Some(dischargeDate)), ("cumulativeCAMHS", Some(cumulativeCAMHS))]
    }
  }

  /** Reading a row's seventeen cells: a shorter row throws. Column 11
      repeats the discharge reason and is not used. */
  function ParseContact(line: seq<string>): Option<ContactRow> {
    if |line| < 17 then None
    else Some(ContactRow(line[1], line[2], line[3], line[4], line[5], line[6], line[7], line[8], line[9],
                         line[10], line[12], line[13], line[14], line[15], line[16]))
  }

  /** The rows of a contact file, in order, up to the first that throws. */
  function ReadContact(lines: seq<seq<string>>): Read<ContactRow>
    decreases |lines|
  {
    if lines == [] then Read([], false)
    else
      var before := ReadContact(lines[..|lines| - 1]);
      var row := ParseContact(lines[|lines| - 1]);
      if before.aborted then before
      else if row.None? then Read(before.rows, true)
      else Read(before.rows + [row.value], false)
  }

  /** The read stops exactly at a short row, and gives every row before it. */
  lemma {:induction false} ReadContactExactly(lines: seq<seq<string>>)
    ensures var r := ReadContact(lines);
            (r.aborted <==> exists j :: 0 <= j < |lines| && |lines[j]| < 17)
            && (!r.aborted ==> |r.rows| == |lines|)
            && |r.rows| <= |lines|
            && (forall j :: 0 <= j < |r.rows| ==> ParseContact(lines[j]) == Some(r.rows[j]))
    decreases |lines|
  {
    if lines != [] {
      var init := lines[..|lines| - 1];
      ReadContactExactly(init);
      assert forall j :: 0 <= j < |init| ==> init[j] == lines[j];
    }
  }

  /** Once a row has thrown, the rows after it are never read. */
  lemma {:induction false} ReadContactStops(lines: seq<seq<string>>, i: nat)
    requires i <= |lines| && ReadContact(lines[..i]).aborted
    ensures ReadContact(lines) == ReadContact(lines[..i])
    decreases |lines| - i
  {
    if i < |lines| {
      assert lines[..i + 1][..i] == lines[..i];
      ReadContactStops(lines, i + 1);
    } else {
      assert lines[..i] == lines;
    }
  }

  /** The rows whose patient is cached; the others are skipped. */
  function Accepted(rows: seq<ContactRow>, known: set<string>): seq<ContactRow>
    decreases |rows|
  {
    if rows == [] then []
    else
      var before := Accepted(rows[..|rows| - 1], known);
      var r := rows[|rows| - 1];
      if r.patientId in known then before + [r] else before
  }

  /** A row is accepted exactly when its patient is cached. */
  lemma {:induction false} AcceptedExactly(rows: seq<ContactRow>, known: set<string>, row: ContactRow)
    ensures row in Accepted(rows, known) <==> row in rows && row.patientId in known
    decreases |rows|
  {
    if rows != [] {
      var init := rows[..|rows| - 1];
      AcceptedExactly(init, known, row);
      assert rows == init + [rows[|rows| - 1]];
    }
  }

  /** The in-place fills of the rows, in order: the row's key and its nine
      attributes. */
  function ContactFills(rows: seq<ContactRow>): seq<(string, seq<(string, Option<string>)>)>
    decreases |rows|
  {
    if rows == [] then []
    else ContactFills(rows[..|rows| - 1]) + [(rows[|rows| - 1].Key(), rows[|rows| - 1].Backfill())]
  }

  /** The calls the rows make to `createContact`: the row's key and the
      contact a miss would create, linked to the row's patient. */
  function ContactCalls(rows: seq<ContactRow>, patients: map<string, ItemId>): seq<(string, Item)>
    decreases |rows|
  {
    if rows == [] then []
    else
      var r := rows[|rows| - 1];
      ContactCalls(rows[..|rows| - 1], patients)
      + [(r.Key(), ContactItem(r.contactDate, r.contactType, r.contactOutcome, r.team, Lookup(patients, r.patientId)))]
  }

  /** The nine names of a contact fill are all distinct, so the last fill of
      a referral decides each of them. */
  lemma ContactBackfillDistinct(r: ContactRow)
    ensures DistinctNames(r.Backfill())
  {
  }

  // ---------------------------------------------------------------------
  // The diagnosis file.

  /** The five referral attributes a diagnosis row writes over its referral. */
  function DiagnosisBackfill(line: seq<string>): seq<(string, Option<string>)>
    requires |line| >= 8
  {
    [("referralTeam", Some(line[3])), ("diagnosisStartDate", Some(line[4])), ("diagnosisEndDate", Some(line[5])),
     ("ICD10diagnosis", Some(line[6])), ("assessmentDate", Some(line[7]))]
  }

  /** The flag cells of a row from column 8 up to `i`: the columns holding
      `yes` (ignoring case), and whether one of them lies past the header,
      where reading its name throws. */
  datatype YesScan = YesScan(cols: seq<nat>, aborted: bool)

  function YesUpTo(header: seq<string>, line: seq<string>, i: nat): (r: YesScan)
    requires i <= |line|
    ensures forall j :: 0 <= j < |r.cols| ==> 8 <= r.cols[j] < i && r.cols[j] < |header|
    decreases i
  {
    if i <= 8 then YesScan([], false)
    else
      var before := YesUpTo(header, line, i - 1);
      if before.aborted || !EqualsIgnoreCase(line[i - 1], "yes") then before
      else if i - 1 >= |header| then YesScan(before.cols, true)
      else YesScan(before.cols + [i - 1], false)
  }

  /** The scan finds exactly the `yes` cells, in column order, and throws
      exactly when one of them has no header name. */
  lemma {:induction false} YesUpToExactly(header: seq<string>, line: seq<string>, i: nat)
    requires i <= |line|
    ensures var r := YesUpTo(header, line, i);
            (r.aborted <==> exists c :: 8 <= c < i && EqualsIgnoreCase(line[c], "yes") && c >= |header|)
            && (!r.aborted ==> forall c :: c in r.cols <==> 8 <= c < i && EqualsIgnoreCase(line[c], "yes"))
            && (forall a, b :: 0 <= a < b < |r.cols| ==> r.cols[a] < r.cols[b])
    decreases i
  {
    if i > 8 {
      YesUpToExactly(header, line, i - 1);
      var before := YesUpTo(header, line, i - 1);
      if !before.aborted && EqualsIgnoreCase(line[i - 1], "yes") {
        if i - 1 >= |header| {
          assert 8 <= i - 1 < i && EqualsIgnoreCase(line[i - 1], "yes") && i - 1 >= |header|;
        } else {
          assert YesUpTo(header, line, i).cols == before.cols + [i - 1];
        }
      }
    }
  }

  /** One more flag cell after a scan that has not thrown. */
  lemma YesUpToSnoc(header: seq<string>, line: seq<string>, c: nat)
    requires 8 <= c < |line| && !YesUpTo(header, line, c).aborted
    ensures var cols := YesUpTo(header, line, c).cols;
            YesUpTo(header, line, c + 1)
            == if !EqualsIgnoreCase(line[c], "yes") then YesScan(cols, false)
               else if c >= |header| then YesScan(cols, true)
               else YesScan(cols + [c], false)
  {
  }

  /** Once a flag cell has thrown, the cells after it are never read. */
  lemma {:induction false} YesUpToStops(header: seq<string>, line: seq<string>, i: nat, n: nat)
    requires i <= n <= |line| && YesUpTo(header, line, i).aborted
    ensures YesUpTo(header, line, n) == YesUpTo(header, line, i)
    decreases n - i
  {
    if i < n {
      YesUpToStops(header, line, i, n - 1);
    }
  }

  /** The diagnostics a row's flag columns would create, in order. */
  function DiagnosticsOf(header: seq<string>, line: seq<string>, cols: seq<nat>, patient: ItemId, referral: ItemId)
    : (made: seq<Item>)
    requires |line| >= 8 && forall j :: 0 <= j < |cols| ==> cols[j] < |header|
    ensures |made| == |cols|
    ensures forall j :: 0 <= j < |cols| ==>
              made[j] == DiagnosticItem(line[7], header[cols[j]], Some(patient), Some(referral))
  {
    seq(|cols|, j requires 0 <= j < |cols| => DiagnosticItem(line[7], header[cols[j]], Some(patient), Some(referral)))
  }

  /** The flag cells of a row before column `c`: none has thrown, and those
      in `cols` have made the diagnostics `made`. */
  predicate FlagsSoFar(header: seq<string>, line: seq<string>, c: nat, cols: seq<nat>, made: seq<Item>,
                       patient: ItemId, referral: ItemId)
  {
    8 <= c <= |line| && YesUpTo(header, line, c) == YesScan(cols, false)
    && made == DiagnosticsOf(header, line, cols, patient, referral)
  }

  lemma DiagnosticsOfSnoc(header: seq<string>, line: seq<string>, cols: seq<nat>, c: nat,
                          patient: ItemId, referral: ItemId)
    requires |line| >= 8 && c < |header| && forall j :: 0 <= j < |cols| ==> cols[j] < |header|
    ensures DiagnosticsOf(header, line, cols + [c], patient, referral)
            == DiagnosticsOf(header, line, cols, patient, referral)
               + [DiagnosticItem(line[7], header[c], Some(patient), Some(referral))]
  {
    var longer := DiagnosticsOf(header, line, cols + [c], patient, referral);
    assert longer[..|cols|] == DiagnosticsOf(header, line, cols, patient, referral);
    assert longer == longer[..|cols|] + [longer[|cols|]];
  }

  /** What the rows of a diagnosis file have done: the referral fills, the
      diagnostics created and stored, and whether a row threw. */
  datatype DiagRun = DiagRun(fills: seq<(string, seq<(string, Option<string>)>)>, made: seq<Item>, aborted: bool)

  /** One row: a short row throws; a row whose patient or referral is not
      cached is skipped; otherwise its referral is filled and its flag
      columns scanned. */
  function DiagnosisRow(header: seq<string>, line: seq<string>, patients: map<string, ItemId>,
                        referrals: map<string, ItemId>): DiagRun
  {
    if |line| < 8 then DiagRun([], [], true)
    else if line[1] !in patients || RowKey(line) !in referrals then DiagRun([], [], false)
    else
      var scan := YesUpTo(header, line, |line|);
      DiagRun([(RowKey(line), DiagnosisBackfill(line))],
              DiagnosticsOf(header, line, scan.cols, patients[line[1]], referrals[RowKey(line)]), scan.aborted)
  }

  /** The rows in order, up to and including the first that throws. */
  function DiagnosisRun(header: seq<string>, rows: seq<seq<string>>, patients: map<string, ItemId>,
                        referrals: map<string, ItemId>): DiagRun
    decreases |rows|
  {
    if rows == [] then DiagRun([], [], false)
    else
      var before := DiagnosisRun(header, rows[..|rows| - 1], patients, referrals);
      if before.aborted then before
      else
        var r := DiagnosisRow(header, rows[|rows| - 1], patients, referrals);
        DiagRun(before.fills + r.fills, before.made + r.made, r.aborted)
  }

  /** One more row after a run that has not thrown. */
  lemma DiagnosisRunSnoc(header: seq<string>, rows: seq<seq<string>>, i: nat,
                         patients: map<string, ItemId>, referrals: map<string, ItemId>)
    requires i < |rows| && !DiagnosisRun(header, rows[..i], patients, referrals).aborted
    ensures var before, r := DiagnosisRun(header, rows[..i], patients, referrals),
                             DiagnosisRow(header, rows[i], patients, referrals);
            DiagnosisRun(header, rows[..i + 1], patients, referrals)
            == DiagRun(before.fills + r.fills, before.made + r.made, r.aborted)
  {
    assert rows[..i + 1][..i] == rows[..i];
  }

  /** Once a row has thrown, the rows after it are never read. */
  lemma {:induction false} DiagnosisRunStops(header: seq<string>, rows: seq<seq<string>>, i: nat,
                                             patients: map<string, ItemId>, referrals: map<string, ItemId>)
    requires i <= |rows| && DiagnosisRun(header, rows[..i], patients, referrals).aborted
    ensures DiagnosisRun(header, rows, patients, referrals) == DiagnosisRun(header, rows[..i], patients, referrals)
    decreases |rows| - i
  {
    if i < |rows| {
      assert rows[..i + 1][..i] == rows[..i];
      DiagnosisRunStops(header, rows, i + 1, patients, referrals);
    } else {
      assert rows[..i] == rows;
    }
  }

  /** A diagnosis row whose patient or referral is not cached fills nothing
      and stores nothing. */
  lemma SkippedDiagnosisRow(header: seq<string>, line: seq<string>, patients: map<string, ItemId>,
                            referrals: map<string, ItemId>)
    requires |line| >= 8 && (line[1] !in patients || RowKey(line) !in referrals)
    ensures DiagnosisRow(header, line, patients, referrals) == DiagRun([], [], false)
  {
  }

  /** A diagnosis row that reads in full stores one Diagnostic per `yes`
      cell past column 7, named by the header and dated by column 7. */
  lemma DiagnosisRowStores(header: seq<string>, line: seq<string>, patients: map<string, ItemId>,
                           referrals: map<string, ItemId>)
    requires |line| >= 8 && line[1] in patients && RowKey(line) in referrals
    requires !DiagnosisRow(header, line, patients, referrals).aborted
    ensures var made := DiagnosisRow(header, line, patients, referrals).made;
            forall c :: 8 <= c < |line| && EqualsIgnoreCase(line[c], "yes") ==>
              c < |header|
              && (exists j :: 0 <= j < |made| &&
                    made[j] == DiagnosticItem(line[7], header[c], Some(patients[line[1]]), Some(referrals[RowKey(line)])))
  {
    YesUpToExactly(header, line, |line|);
    var scan := YesUpTo(header, line, |line|);
    forall c | 8 <= c < |line| && EqualsIgnoreCase(line[c], "yes")
      ensures c < |header|
      ensures exists j :: 0 <= j < |scan.cols| && scan.cols[j] == c
    {
      assert c in scan.cols;
    }
  }

  // ---------------------------------------------------------------------
  // Which reader a file name selects.

  datatype NhsFile = DemographicFile | DiagnosisFile | ContactFile

  /** The readers `process` runs on a file: none unless the name ends with
      `csv` (case-sensitively); otherwise each reader whose file name equals
      the given one ignoring case, tested in this order. */
  function Readers(fileName: string): seq<NhsFile> {
    if !EndsWith(fileName, "csv") then []
    else (if EqualsIgnoreCase(fileName, "campet.csv") then [DemographicFile] else [])
         + (if EqualsIgnoreCase(fileName, "campetPatLevDia.csv") then [DiagnosisFile] else [])
         + (if EqualsIgnoreCase(fileName, "campetPatLevCon.csv") then [ContactFile] else [])
  }

  /** The three names differ even ignoring case, so a file runs one reader at most. */
  lemma AtMostOneReader(fileName: string)
    ensures |Readers(fileName)| <= 1
  {
    var dia, con := ToLower("campetPatLevDia.csv"), ToLower("campetPatLevCon.csv");
    assert |ToLower("campet.csv")| != |dia|;
    assert |ToLower("campet.csv")| != |con|;
    assert dia[12] == 'd' && con[12] == 'c';
  }

  /** Which reader a name selects, reader by reader. */
  lemma ReadersCases(fileName: string)
    ensures Readers(fileName) == [DemographicFile] <==>
              EndsWith(fileName, "csv") && EqualsIgnoreCase(fileName, "campet.csv")
    ensures Readers(fileName) == [DiagnosisFile] <==>
              EndsWith(fileName, "csv") && EqualsIgnoreCase(fileName, "campetPatLevDia.csv")
    ensures Readers(fileName) == [ContactFile] <==>
              EndsWith(fileName, "csv") && EqualsIgnoreCase(fileName, "campetPatLevCon.csv")
    ensures Readers(fileName) == [] <==>
              !EndsWith(fileName, "csv")
              || (!EqualsIgnoreCase(fileName, "campet.csv") && !EqualsIgnoreCase(fileName, "campetPatLevDia.csv")
                  && !EqualsIgnoreCase(fileName, "campetPatLevCon.csv"))
  {
    AtMostOneReader(fileName);
    if EndsWith(fileName, "csv") {
      var dem := if EqualsIgnoreCase(fileName, "campet.csv") then [DemographicFile] else [];
      var dia := if EqualsIgnoreCase(fileName, "campetPatLevDia.csv") then [DiagnosisFile] else [];
      var con := if EqualsIgnoreCase(fileName, "campetPatLevCon.csv") then [ContactFile] else [];
      assert Readers(fileName) == dem + dia + con;
      if dem != [] {
        assert dia == [] && con == [];
      } else if dia != [] {
        assert con == [];
        assert Readers(fileName) == dia;
      } else {
        assert Readers(fileName) == con;
      }
    }
  }

  /** The name test ignores case but the extension test does not: `Campet.csv`
      is read as the demographic file, `CAMPET.CSV` is not read at all. */
  lemma ExtensionIsCaseSensitive(upper: string, mixed: string)
    requires upper == "CAMPET.CSV" && mixed == "Campet.csv"
    ensures EqualsIgnoreCase(upper, "campet.csv") && Readers(upper) == []
    ensures Readers(mixed) == [DemographicFile]
  {
    assert ToLower(upper) == "campet.csv";
    assert ToLower(mixed) == "campet.csv";
    NotEndsWithByLast(upper, "csv");
    assert mixed[|mixed| - 3..] == "csv";
    assert ToLower("campetPatLevDia.csv") != "campet.csv";
    assert ToLower("campetPatLevCon.csv") != "campet.csv";
  }
}
