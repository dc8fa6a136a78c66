/**
  The items the POR converter builds, as functions of the values it passes
  to the setters: which attributes a new Patient, Referral, Contact,
  ClinicalOutcome, Diagnostic or AdditionalData carries, and what the
  Bradford branch of `createReferral` writes over an existing Referral.
 */
module PorItems {
  import opened JavaText
  import opened Items

  const AdditionalDataClass := "AdditionalData"

  /** The referral attributes `createReferral` takes, each possibly null. */
  datatype ReferralFields = ReferralFields(
    age: Option<string>, locality: Option<string>, diagnosis: Option<string>,
    urgency: Option<string>, source: Option<string>, outcome: Option<string>,
    referralDate: Option<string>, triageDate: Option<string>, assessmentDate: Option<string>,
    firstTreatmentDate: Option<string>, dischargeDate: Option<string>,
    dischargeReason: Option<string>, cumulativeCAMHS: Option<string>)

  const NoReferralFields := ReferralFields(None, None, None, None, None, None, None,
                                           None, None, None, None, None, None)

  /** The attributes a Bradford contact row fills into an existing referral:
      all but the patient's age and locality. */
  function MergedAttrs(f: ReferralFields): seq<(string, Option<string>)> {
    [("ICD10diagnosis", f.diagnosis), ("urgency", f.urgency), ("source", f.source),
     ("outcome", f.outcome), ("referralDate", f.referralDate), ("triageDate", f.triageDate),
     ("assessmentDate", f.assessmentDate), ("firstTreatmentDate", f.firstTreatmentDate),
     ("dischargeDate", f.dischargeDate), ("dischargeReason", f.dischargeReason),
     ("cumulativeCAMHS", f.cumulativeCAMHS)]
  }

  /** The attributes of a new referral, in the order they are set. */
  function ReferralAttrs(f: ReferralFields): seq<(string, Option<string>)> {
    [("patientAge", f.age), ("locality", f.locality)] + MergedAttrs(f)
  }

  /** A new Patient: identifier, the non-null ethnicity, gender and site, and
      the current dataset. */
  function PatientItem(patientId: Option<string>, ethnicity: Option<string>, gender: Option<string>,
                       site: Option<string>, dataSetRef: Option<ItemId>): Item {
    Item("Patient",
         SetAll(map[], [("identifier", patientId), ("ethnicity", ethnicity), ("gender", gender), ("site", site)]),
         if dataSetRef.Some? then map["dataSet" := dataSetRef.value] else map[])
  }

  /** A new Referral, linked to the patient when one is cached. */
  function ReferralItem(referralId: Option<string>, f: ReferralFields, patient: Option<ItemId>): Item {
    Item("Referral", SetAll(SetIfNotNull(map[], "identifier", referralId), ReferralAttrs(f)),
         LinkRefs(patient, None))
  }

  /** The Bradford branch: the non-null values of the merged fields overwrite. */
  function BradfordMerge(referral: Item, f: ReferralFields): Item {
    referral.(attrs := SetAll(referral.attrs, MergedAttrs(f)))
  }

  /** The names the Bradford merge may write. */
  const MergedNames: seq<string> := ["ICD10diagnosis", "urgency", "source", "outcome", "referralDate",
    "triageDate", "assessmentDate", "firstTreatmentDate", "dischargeDate", "dischargeReason", "cumulativeCAMHS"]

  lemma MergedNamesDistinct(f: ReferralFields)
    ensures DistinctNames(MergedAttrs(f))
    ensures forall j :: 0 <= j < |MergedAttrs(f)| ==>
              MergedAttrs(f)[j].0 !in {"patientAge", "locality", "identifier"}
  {
  }

  /** The Bradford merge writes each non-null merged field, keeps every other
      attribute (the patient's age and locality among them), and keeps the
      class and the patient link. */
  lemma BradfordMergeEffect(referral: Item, f: ReferralFields)
    ensures BradfordMerge(referral, f).className == referral.className
    ensures BradfordMerge(referral, f).refs == referral.refs
    ensures forall i :: 0 <= i < |MergedAttrs(f)| && MergedAttrs(f)[i].1.Some? ==>
              BradfordMerge(referral, f).attrs[MergedAttrs(f)[i].0] == MergedAttrs(f)[i].1.value
    ensures forall n :: n !in MergedNames ==>
              (n in BradfordMerge(referral, f).attrs <==> n in referral.attrs)
              && (n in referral.attrs ==> BradfordMerge(referral, f).attrs[n] == referral.attrs[n])
  {
    var pairs := MergedAttrs(f);
    MergedNamesDistinct(f);
    assert Names(pairs) == MergedNames;
    forall i | 0 <= i < |pairs| && pairs[i].1.Some?
      ensures BradfordMerge(referral, f).attrs[pairs[i].0] == pairs[i].1.value
    {
      SetAllHit(referral.attrs, pairs, i);
    }
    forall n | n !in Names(pairs)
      ensures (n in BradfordMerge(referral, f).attrs <==> n in referral.attrs)
              && (n in referral.attrs ==> BradfordMerge(referral, f).attrs[n] == referral.attrs[n])
    {
      assert forall j :: 0 <= j < |pairs| ==> pairs[j].0 == Names(pairs)[j];
      SetAllMiss(referral.attrs, pairs, n);
    }
  }

  /** Merging the same row twice is merging it once. */
  lemma BradfordMergeIdempotent(referral: Item, f: ReferralFields)
    ensures BradfordMerge(BradfordMerge(referral, f), f) == BradfordMerge(referral, f)
  {
    SetAllIdempotent(referral.attrs, MergedAttrs(f));
  }

  /** The contact attributes `createContact` and `storeContact` take. */
  datatype ContactFields = ContactFields(
    contactId: Option<string>, ordinal: Option<string>, contactDate: Option<string>,
    urgency: Option<string>, contactType: Option<string>, attendance: Option<string>,
    outcome: Option<string>, team: Option<string>, tier: Option<string>)

  function ContactAttrs(f: ContactFields): seq<(string, Option<string>)> {
    [("identifier", f.contactId), ("ordinal", f.ordinal), ("contactDate", f.contactDate),
     ("urgency", f.urgency), ("contactType", f.contactType), ("attendance", f.attendance),
     ("contactOutcome", f.outcome), ("team", f.team), ("teamTier", f.tier)]
  }

  /** A new Contact, linked to whichever of its patient and referral are cached. */
  function ContactItem(f: ContactFields, patient: Option<ItemId>, referral: Option<ItemId>): Item {
    Item("Contact", SetAll(map[], ContactAttrs(f)), LinkRefs(patient, referral))
  }

  /** The Lewisham form of `storeOutcome`. */
  function EpisodeOutcomeAttrs(episodeId: Option<string>, ratingDate: Option<string>,
                               ratingType: Option<string>, cgasScore: Option<string>)
    : seq<(string, Option<string>)>
  {
    [("episodeId", episodeId), ("ratingDate", ratingDate), ("ratingType", ratingType),
     ("cgasScore", cgasScore)]
  }

  /** The Hertfordshire form of `storeOutcome`. */
  function RatingOutcomeAttrs(ratingDate: Option<string>, rawScore: Option<string>,
                              assName: Option<string>, snomed: Option<string>, scale: Option<string>,
                              ageAtAssessment: Option<string>, grade: Option<string>,
                              score: Option<string>, note: Option<string>,
                              fiscalYear: Option<string>, firstOrLast: Option<string>)
    : seq<(string, Option<string>)>
  {
    [("ratingDate", ratingDate), ("rawScore", rawScore), ("assName", assName),
     ("snomed", snomed), ("scale", scale), ("ageAtAssessment", ageAtAssessment),
     ("grade", grade), ("score", score), ("note", note), ("fiscalYear", fiscalYear),
     ("firstOrLast", firstOrLast)]
  }

  /** A ClinicalOutcome always links its patient; the referral only when cached. */
  function OutcomeItem(attrs: seq<(string, Option<string>)>, patient: ItemId, referral: Option<ItemId>): Item {
    Item("ClinicalOutcome", SetAll(map[], attrs), LinkRefs(Some(patient), referral))
  }

  /** The short form of `createDiagnostic`. */
  function DiagnosticAttrs(assessmentDate: Option<string>, observation: Option<string>,
                           value: Option<string>): seq<(string, Option<string>)>
  {
    [("assessmentDate", assessmentDate), ("observation", observation), ("value", value)]
  }

  /** The form of `createDiagnostic` that also records the measure. */
  function MeasuredDiagnosticAttrs(measure: Option<string>, measureType: Option<string>,
                                   assessmentDate: Option<string>, observation: Option<string>,
                                   value: Option<string>): seq<(string, Option<string>)>
  {
    [("measure", measure), ("measureType", measureType)] + DiagnosticAttrs(assessmentDate, observation, value)
  }

  function DiagnosticItem(attrs: seq<(string, Option<string>)>, patient: Option<ItemId>,
                          referral: Option<ItemId>): Item
  {
    Item("Diagnostic", SetAll(map[], attrs), LinkRefs(patient, referral))
  }

  /** An AdditionalData-like item: a name/value pair of the given class. */
  function AdditionalItem(className: string, name: Option<string>, value: Option<string>,
                          patient: Option<ItemId>, referral: Option<ItemId>): Item
  {
    Item(className, SetAll(map[], [("name", name), ("value", value)]), LinkRefs(patient, referral))
  }
}
