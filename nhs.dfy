/**
  The Cambridge and Peterborough converter: one dataset, and three files
  read in the order demographic, contact, diagnosis. Patients, referrals and
  contacts are cached by key, first write wins; the contact and diagnosis
  files write more attributes into the cached referrals in place.
 */
module Nhs {
  import opened JavaText
  import opened Items
  import opened ItemStore
  import opened NhsRows

  /** No two keys share an item. */
  ghost predicate Injective(cache: map<string, ItemId>) {
    forall a, b :: a in cache && b in cache && a != b ==> cache[a] != cache[b]
  }

  /** An item with the fills of its key applied to its attributes. */
  function RefillItem(item: Item, fills: seq<(string, seq<(string, Option<string>)>)>, key: string): Item {
    item.(attrs := Refill(item.attrs, fills, key))
  }

  /** Each cached referral that existed before a run of fills now holds its
      earlier content with the fills of its key applied, in order. */
  ghost predicate Refilled(referrals: map<string, ItemId>, items0: map<ItemId, Item>, items: map<ItemId, Item>,
                           fills: seq<(string, seq<(string, Option<string>)>)>)
  {
    forall k :: k in referrals && referrals[k] in items0 ==>
      referrals[k] in items && items[referrals[k]] == RefillItem(items0[referrals[k]], fills, k)
  }

  /** Every item that existed before and is not in `ids` is as it was. */
  ghost predicate Untouched(items0: map<ItemId, Item>, items: map<ItemId, Item>, ids: set<ItemId>) {
    forall id :: id in items0 && id !in ids ==> id in items && items[id] == items0[id]
  }

  lemma RefilledStart(referrals: map<string, ItemId>, items0: map<ItemId, Item>)
    ensures Refilled(referrals, items0, items0, [])
  {
  }

  /** A fill of a cached referral writes into that referral alone. */
  lemma RefilledHit(referrals: map<string, ItemId>, items0: map<ItemId, Item>, items: map<ItemId, Item>,
                    fills: seq<(string, seq<(string, Option<string>)>)>, key: string, pairs: seq<(string, Option<string>)>)
    requires Refilled(referrals, items0, items, fills) && Injective(referrals)
    requires key in referrals && referrals[key] in items0 && referrals[key] in items
    ensures var id := referrals[key];
            Refilled(referrals, items0, items[id := items[id].(attrs := SetAll(items[id].attrs, pairs))],
                     fills + [(key, pairs)])
  {
    var fills2 := fills + [(key, pairs)];
    assert fills2[..|fills2| - 1] == fills;
  }

  /** A fill whose key is not cached changes nothing. */
  lemma RefilledSkip(referrals: map<string, ItemId>, items0: map<ItemId, Item>, items: map<ItemId, Item>,
                     fills: seq<(string, seq<(string, Option<string>)>)>, key: string, pairs: seq<(string, Option<string>)>)
    requires Refilled(referrals, items0, items, fills) && key !in referrals
    ensures Refilled(referrals, items0, items, fills + [(key, pairs)])
  {
    var fills2 := fills + [(key, pairs)];
    assert fills2[..|fills2| - 1] == fills;
  }

  lemma RefilledKept(referrals: map<string, ItemId>, items0: map<ItemId, Item>, items: map<ItemId, Item>,
                     items2: map<ItemId, Item>, fills: seq<(string, seq<(string, Option<string>)>)>)
    requires Refilled(referrals, items0, items, fills) && Kept(items, items2)
    ensures Refilled(referrals, items0, items2, fills)
  {
  }

  lemma UntouchedKept(items0: map<ItemId, Item>, items: map<ItemId, Item>, items2: map<ItemId, Item>,
                      ids: set<ItemId>)
    requires Untouched(items0, items, ids) && Kept(items, items2)
    ensures Untouched(items0, items2, ids)
  {
  }

  /** The items `made`, in order, under consecutive ids from `first`. */
  ghost predicate MadeFrom(items: map<ItemId, Item>, first: ItemId, made: seq<Item>) {
    forall id :: first <= id < first + |made| ==> id in items && items[id] == made[id - first]
  }

  lemma MadeFromAppend(items: map<ItemId, Item>, first: ItemId, made: seq<Item>, more: seq<Item>)
    requires MadeFrom(items, first, made) && MadeFrom(items, first + |made|, more)
    ensures MadeFrom(items, first, made + more)
  {
    var all := made + more;
    forall id | first <= id < first + |all|
      ensures id in items && items[id] == all[id - first]
    {
      if id < first + |made| {
        assert all[id - first] == made[id - first];
      } else {
        assert all[id - first] == more[id - (first + |made|)];
      }
    }
  }

  lemma MadeFromKept(items: map<ItemId, Item>, items2: map<ItemId, Item>, first: ItemId, made: seq<Item>)
    requires MadeFrom(items, first, made) && Kept(items, items2)
    ensures MadeFrom(items2, first, made)
  {
    forall id | first <= id < first + |made|
      ensures id in items2 && items2[id] == made[id - first]
    {
      assert id in items;
    }
  }

  lemma MadeFromBelow(items: map<ItemId, Item>, first: ItemId, made: seq<Item>, id: ItemId, item: Item)
    requires MadeFrom(items, first, made) && id < first
    ensures MadeFrom(items[id := item], first, made)
  {
  }

  lemma MadeFromSnoc(items: map<ItemId, Item>, items2: map<ItemId, Item>, first: ItemId, made: seq<Item>,
                     id: ItemId, item: Item)
    requires MadeFrom(items, first, made) && Kept(items, items2)
    requires id == first + |made| && id in items2 && items2[id] == item
    ensures MadeFrom(items2, first, made + [item])
  {
    var all := made + [item];
    forall id | first <= id < first + |all|
      ensures id in items2 && items2[id] == all[id - first]
    {
      if id < first + |made| {
        assert id in items;
        assert all[id - first] == made[id - first];
      }
    }
  }

  /** Where a run of diagnosis rows has got to, from items `items0` and id
      `n0`: the referrals refilled by `run.fills`, every other old item as it
      was, the diagnostics of `run.made` created under consecutive ids from
      `n0`, nothing else new. */
  ghost predicate DiagProgress(referrals: map<string, ItemId>, items0: map<ItemId, Item>, n0: ItemId,
                               items: map<ItemId, Item>, nextId: ItemId, run: DiagRun)
  {
    (forall id :: id in items0 ==> id < n0)
    && nextId == n0 + |run.made|
    && (forall id :: id in items && id !in items0 ==> n0 <= id)
    && MadeFrom(items, n0, run.made)
    && Refilled(referrals, items0, items, run.fills)
    && Untouched(items0, items, referrals.Values)
  }

  lemma DiagProgressStart(referrals: map<string, ItemId>, items0: map<ItemId, Item>, n0: ItemId)
    requires forall id :: id in items0 ==> id < n0
    ensures DiagProgress(referrals, items0, n0, items0, n0, DiagRun([], [], false))
  {
    RefilledStart(referrals, items0);
  }

  /** New diagnostics created after a run keep its progress. */
  lemma DiagProgressMade(referrals: map<string, ItemId>, items0: map<ItemId, Item>, n0: ItemId,
                         items: map<ItemId, Item>, nextId: ItemId, run: DiagRun,
                         items2: map<ItemId, Item>, more: seq<Item>, aborted: bool)
    requires DiagProgress(referrals, items0, n0, items, nextId, run)
    requires Kept(items, items2) && forall id :: id in items2 && id !in items ==> nextId <= id
    requires MadeFrom(items2, nextId, more)
    ensures DiagProgress(referrals, items0, n0, items2, nextId + |more|, DiagRun(run.fills, run.made + more, aborted))
  {
    RefilledKept(referrals, items0, items, items2, run.fills);
    UntouchedKept(items0, items, items2, referrals.Values);
    MadeFromKept(items, items2, n0, run.made);
    MadeFromAppend(items2, n0, run.made, more);
  }

  /** A row's five values written over its referral keep a run's progress. */
  lemma DiagProgressFilled(referrals: map<string, ItemId>, items0: map<ItemId, Item>, n0: ItemId,
                           items: map<ItemId, Item>, nextId: ItemId, run: DiagRun, key: string,
                           pairs: seq<(string, Option<string>)>)
    requires DiagProgress(referrals, items0, n0, items, nextId, run) && Injective(referrals)
    requires key in referrals && referrals[key] in items0 && referrals[key] in items
    ensures var id := referrals[key];
            DiagProgress(referrals, items0, n0, items[id := items[id].(attrs := SetAll(items[id].attrs, pairs))],
                         nextId, DiagRun(run.fills + [(key, pairs)], run.made, run.aborted))
  {
    var id := referrals[key];
    RefilledHit(referrals, items0, items, run.fills, key, pairs);
    MadeFromBelow(items, n0, run.made, id, items[id].(attrs := SetAll(items[id].attrs, pairs)));
    assert id in referrals.Values;
  }

  lemma KeptTrans(items0: map<ItemId, Item>, items1: map<ItemId, Item>, items2: map<ItemId, Item>)
    requires Kept(items0, items1) && Kept(items1, items2)
    ensures Kept(items0, items2)
  {
  }

  class NhsConverter {
    const writer: Writer
    var patients: map<string, ItemId>
    var referrals: map<string, ItemId>
    var contacts: map<string, ItemId>
    /** Dataset names to their DataSource. */
    var dataSets: map<string, ItemId>
    /** The DataSet new patients link to. */
    var dataSetRef: Option<ItemId>

    ghost predicate Valid()
      reads this, writer
    {
      writer.Valid() && CachesIn(writer.items) && Injective(referrals)
    }

    /** Each cache names items of its class, and the current dataset is a DataSet. */
    ghost predicate CachesIn(items: map<ItemId, Item>)
      reads this
    {
      CachedAs(patients, items, "Patient")
      && CachedAs(referrals, items, "Referral")
      && CachedAs(contacts, items, "Contact")
      && CachedAs(dataSets, items, "DataSource")
      && (dataSetRef.Some? ==> dataSetRef.value in items && items[dataSetRef.value].className == "DataSet")
    }

    /** The caches stay valid while every item keeps its class. */
    lemma CachesSurvive(before: map<ItemId, Item>, after: map<ItemId, Item>)
      requires CachesIn(before)
      requires forall id :: id in before ==> id in after && after[id].className == before[id].className
      ensures CachesIn(after)
    {
    }

    constructor(w: Writer)
      requires w.Valid()
      ensures Valid() && writer == w
      ensures patients == map[] && referrals == map[] && contacts == map[] && dataSets == map[]
      ensures dataSetRef == None
    {
      writer := w;
      patients := map[];
      referrals := map[];
      contacts := map[];
      dataSets := map[];
      dataSetRef := None;
    }

    /** `process`: a file whose name does not end with `csv` is ignored.
        Any other file first makes sure the Cambridge and Peterborough dataset
        exists, then runs the reader its name selects, ignoring case, if any.
        `completed` is false when the reader throws. `items1`, `next1` and
        `stored1` are the writer's state between the two steps. */
    method Process(fileName: string, file: seq<seq<string>>)
      returns (completed: bool, ghost ran: seq<NhsFile>,
               ghost items1: map<ItemId, Item>, ghost next1: ItemId, ghost stored1: seq<Stored>)
      requires Valid()
      modifies this`patients, this`referrals, this`contacts, this`dataSets, this`dataSetRef, writer
      ensures Valid() && ran == Readers(fileName) && |ran| <= 1
      ensures !EndsWith(fileName, "csv") ==>
                completed && patients == old(patients) && referrals == old(referrals) && contacts == old(contacts)
                && dataSets == old(dataSets) && dataSetRef == old(dataSetRef)
                && writer.items == old(writer.items) && writer.stored == old(writer.stored)
      ensures EndsWith(fileName, "csv") && DatasetTitle in old(dataSets) ==>
                dataSets == old(dataSets) && dataSetRef == old(dataSetRef)
                && items1 == old(writer.items) && next1 == old(writer.nextId) && stored1 == old(writer.stored)
      ensures EndsWith(fileName, "csv") && DatasetTitle !in old(dataSets) ==>
                var source := old(writer.nextId);
                var dataSet := DataSetItem(Some(DatasetTitle), Some(SiteType), source);
                dataSets == old(dataSets)[DatasetTitle := source] && dataSetRef == Some(source + 1)
                && items1 == old(writer.items)[source := DataSourceItem()][source + 1 := dataSet]
                && next1 == source + 2
                && stored1 == old(writer.stored) + [Stored(source, DataSourceItem()), Stored(source + 1, dataSet)]
      ensures EndsWith(fileName, "csv") && ran == [] ==>
                completed && writer.items == items1 && writer.nextId == next1 && writer.stored == stored1
      ensures ran == [DemographicFile] ==>
                DemographicRead(old(patients), old(referrals), items1, stored1, file, completed)
      ensures ran == [ContactFile] ==> ContactRead(old(contacts), items1, stored1, file, completed)
      ensures ran == [DiagnosisFile] ==> DiagnosisRead(items1, next1, stored1, file, completed)
      ensures ran != [DemographicFile] ==> patients == old(patients) && referrals == old(referrals)
      ensures ran != [ContactFile] ==> contacts == old(contacts)
    {
      ran := Readers(fileName);
      AtMostOneReader(fileName);
      ReadersCases(fileName);
      completed := true;
      items1, next1, stored1 := writer.items, writer.nextId, writer.stored;
      if !EndsWith(fileName, "csv") {
        return;
      }
      CreateDataSet(DatasetTitle);
      items1, next1, stored1 := writer.items, writer.nextId, writer.stored;
      completed := RunReader(fileName, file);
    }

    /** What `processDemographic` leaves, starting from the caches `patients0`
        and `referrals0` and the writer's `items0` and `stored0`: a file with
        no header throws, otherwise the patients and referrals of the rows
        read are cached first-call-wins, and a reader that completes stores
        every cached patient, in some order. */
    ghost predicate DemographicRead(patients0: map<string, ItemId>, referrals0: map<string, ItemId>,
                                    items0: map<ItemId, Item>, stored0: seq<Stored>,
                                    file: seq<seq<string>>, completed: bool)
      reads this, writer
    {
      Valid() && Kept(items0, writer.items)
      && (file == [] ==>
            !completed && patients == patients0 && referrals == referrals0
            && writer.items == items0 && writer.stored == stored0)
      && (file != [] ==>
            var read := ReadDemographic(file[1..]);
            completed == !read.aborted
            && FirstWins(patients0, items0, patients, writer.items, FirstOf(PatientCalls(read.rows, dataSetRef)))
            && FirstWins(referrals0, items0, referrals, writer.items, FirstOf(ReferralCalls(read.rows, patients))))
      && (!completed ==> writer.stored == stored0)
      && (completed ==>
            exists order :: Enumerates(order, patients.Keys)
                            && writer.stored == stored0 + Flushed(writer.items, patients, order))
    }

    /** What `processContact` leaves, starting from the cache `contacts0` and
        the writer's `items0` and `stored0`: a file with no header throws,
        otherwise the contacts of the rows whose patient is known are cached
        first-call-wins and their referrals filled in; nothing is stored. */
    ghost predicate ContactRead(contacts0: map<string, ItemId>, items0: map<ItemId, Item>, stored0: seq<Stored>,
                                file: seq<seq<string>>, completed: bool)
      reads this, writer
    {
      Valid() && writer.stored == stored0
      && (file == [] ==> !completed && contacts == contacts0 && writer.items == items0)
      && (file != [] ==>
            var read := ReadContact(file[1..]);
            var accepted := Accepted(read.rows, patients.Keys);
            completed == !read.aborted
            && FirstWins(contacts0, items0, contacts, writer.items, FirstOf(ContactCalls(accepted, patients)))
            && Refilled(referrals, items0, writer.items, ContactFills(accepted))
            && Untouched(items0, writer.items, referrals.Values))
    }

    /** What `processDiagnosis` leaves, starting from the writer's `items0`,
        `next0` and `stored0`: a file with no header throws, otherwise the
        diagnosis run over the rows creates and stores its items, and a reader
        that completes then stores every cached referral and every cached
        contact, each in some order. */
    ghost predicate DiagnosisRead(items0: map<ItemId, Item>, next0: ItemId, stored0: seq<Stored>,
                                  file: seq<seq<string>>, completed: bool)
      reads this, writer
    {
      Valid()
      && (file == [] ==>
            !completed && writer.items == items0 && writer.stored == stored0 && writer.nextId == next0)
      && (file != [] ==>
            var run := DiagnosisRun(file[0], file[1..], patients, referrals);
            completed == !run.aborted
            && DiagProgress(referrals, items0, next0, writer.items, writer.nextId, run)
            && (!completed ==> writer.stored == stored0 + Records(next0, run.made))
            && (completed ==>
                  exists referralOrder, contactOrder ::
                    Enumerates(referralOrder, referrals.Keys) && Enumerates(contactOrder, contacts.Keys)
                    && writer.stored == stored0 + Records(next0, run.made)
                                       + Flushed(writer.items, referrals, referralOrder)
                                       + Flushed(writer.items, contacts, contactOrder)))
    }

    /** The reader a `csv` file's name selects, ignoring case, if any, and
        what it does to the caches and the writer. */
    method RunReader(fileName: string, file: seq<seq<string>>) returns (completed: bool)
      requires Valid() && EndsWith(fileName, "csv")
      modifies this`patients, this`referrals, this`contacts, writer
      ensures Valid()
      ensures Readers(fileName) == [] ==>
                completed && writer.items == old(writer.items) && writer.nextId == old(writer.nextId)
                && writer.stored == old(writer.stored)
      ensures Readers(fileName) == [DemographicFile] ==>
                DemographicRead(old(patients), old(referrals), old(writer.items), old(writer.stored), file, completed)
      ensures Readers(fileName) == [ContactFile] ==>
                ContactRead(old(contacts), old(writer.items), old(writer.stored), file, completed)
      ensures Readers(fileName) == [DiagnosisFile] ==>
                DiagnosisRead(old(writer.items), old(writer.nextId), old(writer.stored), file, completed)
      ensures Readers(fileName) != [DemographicFile] ==> patients == old(patients) && referrals == old(referrals)
      ensures Readers(fileName) != [ContactFile] ==> contacts == old(contacts)
    {
      ReadersCases(fileName);
      ghost var order, referralOrder, contactOrder;
      completed := true;
      if EqualsIgnoreCase(fileName, "campet.csv") {
        completed, order := ProcessDemographic(file);
      }
      if completed && EqualsIgnoreCase(fileName, "campetPatLevDia.csv") {
        completed, referralOrder, contactOrder := ProcessDiagnosis(file);
      }
      if completed && EqualsIgnoreCase(fileName, "campetPatLevCon.csv") {
        completed := ProcessContact(file);
      }
    }

    /** `createDataSet`: a name seen for the first time gets a DataSource and
        an `accelerator` DataSet, both stored at once, and the DataSet becomes
        the one new patients link to; a name seen before changes nothing. */
    method CreateDataSet(office: string)
      requires Valid()
      modifies this`dataSets, this`dataSetRef, writer
      ensures Valid() && office in dataSets
      ensures office in old(dataSets) ==>
                dataSets == old(dataSets) && dataSetRef == old(dataSetRef)
                && writer.items == old(writer.items) && writer.nextId == old(writer.nextId)
                && writer.stored == old(writer.stored)
      ensures office !in old(dataSets) ==>
                var source := old(writer.nextId);
                var dataSet := DataSetItem(Some(office), Some(SiteType), source);
                dataSets == old(dataSets)[office := source] && dataSetRef == Some(source + 1)
                && writer.items == old(writer.items)[source := DataSourceItem()][source + 1 := dataSet]
                && writer.nextId == source + 2
                && writer.stored == old(writer.stored) + [Stored(source, DataSourceItem()), Stored(source + 1, dataSet)]
    {
      if office !in dataSets {
        var source, ds := StoreDataSet(office);
        dataSetRef := Some(ds);
        dataSets := dataSets[office := source];
      }
    }

    /** The DataSource and DataSet of a new name, created and stored in that order. */
    method StoreDataSet(office: string) returns (source: ItemId, ds: ItemId)
      requires Valid()
      modifies writer
      ensures Valid()
      ensures source == old(writer.nextId) && ds == source + 1 && writer.nextId == source + 2
      ensures writer.items == old(writer.items)[source := DataSourceItem()]
                                               [ds := DataSetItem(Some(office), Some(SiteType), source)]
      ensures writer.stored == old(writer.stored) + [Stored(source, DataSourceItem()),
                                                     Stored(ds, DataSetItem(Some(office), Some(SiteType), source))]
    {
      ghost var items0 := writer.items;
      source := writer.Create(DataSourceItem());
      ds := writer.Create(DataSetItem(Some(office), Some(SiteType), source));
      writer.Store(source);
      writer.Store(ds);
      CachesSurvive(items0, writer.items);
    }

    /** `createPatient`: the patient cached under the id, created on first use
        with the non-empty ethnicity and gender, the site and the current
        dataset. */
    method CreatePatient(patientId: string, ethnicity: string, gender: string, site: string) returns (id: ItemId)
      requires Valid()
      modifies this`patients, writer
      ensures Valid() && patientId in patients && id == patients[patientId]
      ensures Extends(old(patients), patients)
      ensures patientId in old(patients) ==>
                id == old(patients[patientId]) && patients == old(patients)
                && writer.items == old(writer.items) && writer.nextId == old(writer.nextId)
      ensures patientId !in old(patients) ==>
                id == old(writer.nextId) && patients == old(patients)[patientId := id]
                && id !in old(writer.items)
                && writer.items == old(writer.items)[id := PatientItem(patientId, ethnicity, gender, site, dataSetRef)]
                && writer.nextId == id + 1
      ensures writer.stored == old(writer.stored) && Kept(old(writer.items), writer.items)
    {
      if patientId in patients {
        id := patients[patientId];
      } else {
        ghost var items0 := writer.items;
        id := writer.Create(PatientItem(patientId, ethnicity, gender, site, dataSetRef));
        CachesSurvive(items0, writer.items);
        patients := patients[patientId := id];
      }
    }

    /** `createReferral`: the referral cached under the key, created on first
        use with its identifier and age, and linked to the patient if and only
        if one is passed. */
    method CreateReferral(patRefId: string, referralId: string, age: string, patient: Option<ItemId>)
      returns (id: ItemId)
      requires Valid() && (patient.Some? ==> patient.value in writer.items)
      modifies this`referrals, writer
      ensures Valid() && patRefId in referrals && id == referrals[patRefId]
      ensures Extends(old(referrals), referrals)
      ensures patRefId in old(referrals) ==>
                id == old(referrals[patRefId]) && referrals == old(referrals)
                && writer.items == old(writer.items) && writer.nextId == old(writer.nextId)
      ensures patRefId !in old(referrals) ==>
                id == old(writer.nextId) && referrals == old(referrals)[patRefId := id]
                && id !in old(writer.items)
                && writer.items == old(writer.items)[id := ReferralItem(referralId, age, patient)]
                && writer.nextId == id + 1
      ensures writer.stored == old(writer.stored) && Kept(old(writer.items), writer.items)
    {
      if patRefId in referrals {
        id := referrals[patRefId];
      } else {
        ghost var items0 := writer.items;
        id := writer.Create(ReferralItem(referralId, age, patient));
        CachesSurvive(items0, writer.items);
        referrals := referrals[patRefId := id];
      }
    }

    /** `createContact`: the contact cached under `patientId-referralId`,
        created on first use, linked to the patient when it is cached and
        never to a referral. */
    method CreateContact(patientId: string, referralId: string, contactDate: string, contactType: string,
                         contactOutcome: string, team: string) returns (id: ItemId)
      requires Valid()
      modifies this`contacts, writer
      ensures Valid()
      ensures var key := PatRefId(Some(patientId), Some(referralId));
              key in contacts && id == contacts[key]
              && (key in old(contacts) ==>
                    id == old(contacts[key]) && contacts == old(contacts)
                    && writer.items == old(writer.items) && writer.nextId == old(writer.nextId))
              && (key !in old(contacts) ==>
                    id == old(writer.nextId) && id !in old(writer.items) && contacts == old(contacts)[key := id]
                    && writer.items == old(writer.items)[id := ContactItem(contactDate, contactType, contactOutcome, team,
                                                                           Lookup(patients, patientId))]
                    && writer.nextId == id + 1)
      ensures writer.stored == old(writer.stored) && Kept(old(writer.items), writer.items)
    {
      var key := PatRefId(Some(patientId), Some(referralId));
      if key in contacts {
        id := contacts[key];
      } else {
        ghost var items0 := writer.items;
        id := writer.Create(ContactItem(contactDate, contactType, contactOutcome, team, Lookup(patients, patientId)));
        CachesSurvive(items0, writer.items);
        contacts := contacts[key := id];
      }
    }

    /** `createDiagnostic`: a new Diagnostic, cached nowhere, linked to
        whichever of its patient and referral are cached. */
    method CreateDiagnostic(patientId: string, patRefId: string, assessmentDate: string, observation: string)
      returns (id: ItemId)
      requires Valid()
      modifies writer
      ensures Valid()
      ensures id == old(writer.nextId) && writer.nextId == id + 1
      ensures id !in old(writer.items) && Kept(old(writer.items), writer.items)
      ensures writer.items == old(writer.items)[id := DiagnosticItem(assessmentDate, observation,
                                                     Lookup(patients, patientId), Lookup(referrals, patRefId))]
      ensures writer.stored == old(writer.stored)
    {
      ghost var items0 := writer.items;
      id := writer.Create(DiagnosticItem(assessmentDate, observation, Lookup(patients, patientId), Lookup(referrals, patRefId)));
      CachesSurvive(items0, writer.items);
    }

    /** `processDemographic`: a file with no header line throws at once. Each
        row is read in full (a row of fewer than six cells throws and ends the
        file) and asks for its patient, then for its referral linked to that
        patient, both first write wins. Only after the last row are the
        patients stored; the referrals are not. */
    method ProcessDemographic(file: seq<seq<string>>) returns (completed: bool, ghost order: seq<string>)
      requires Valid()
      modifies this`patients, this`referrals, writer
      ensures Valid() && Kept(old(writer.items), writer.items)
      ensures file == [] ==>
                !completed && patients == old(patients) && referrals == old(referrals)
                && writer.items == old(writer.items) && writer.stored == old(writer.stored)
      ensures file != [] ==>
                var read := ReadDemographic(file[1..]);
                completed == !read.aborted
                && FirstWins(old(patients), old(writer.items), patients, writer.items,
                             FirstOf(PatientCalls(read.rows, dataSetRef)))
                && FirstWins(old(referrals), old(writer.items), referrals, writer.items,
                             FirstOf(ReferralCalls(read.rows, patients)))
      ensures completed ==> Enumerates(order, patients.Keys)
      ensures writer.stored == old(writer.stored) + if completed then Flushed(writer.items, patients, order) else []
      ensures DemographicRead(old(patients), old(referrals), old(writer.items), old(writer.stored), file, completed)
    {
      completed, order := false, [];
      if file == [] {
        return;
      }
      completed := DemographicRows(file[1..]);
      if completed {
        order := StorePatients();
      } else {
        assert writer.stored == writer.stored + [];
      }
    }

    /** The rows of the demographic file after its header. */
    method DemographicRows(lines: seq<seq<string>>) returns (completed: bool)
      requires Valid()
      modifies this`patients, this`referrals, writer
      ensures Valid() && Kept(old(writer.items), writer.items) && writer.stored == old(writer.stored)
      ensures completed == !ReadDemographic(lines).aborted
      ensures FirstWins(old(patients), old(writer.items), patients, writer.items,
                        FirstOf(PatientCalls(ReadDemographic(lines).rows, dataSetRef)))
      ensures FirstWins(old(referrals), old(writer.items), referrals, writer.items,
                        FirstOf(ReferralCalls(ReadDemographic(lines).rows, patients)))
    {
      ghost var p0, r0, items0 := patients, referrals, writer.items;
      ghost var done: seq<DemographicRow> := [];
      FirstWinsStart(p0, items0);
      FirstWinsStart(r0, items0);
      for i := 0 to |lines|
        invariant ReadDemographic(lines[..i]) == Read(done, false)
        invariant forall r :: r in done ==> r.patientId in patients
        invariant Valid() && Kept(items0, writer.items) && writer.stored == old(writer.stored)
        invariant FirstWins(p0, items0, patients, writer.items, FirstOf(PatientCalls(done, dataSetRef)))
        invariant FirstWins(r0, items0, referrals, writer.items, FirstOf(ReferralCalls(done, patients)))
      {
        assert lines[..i + 1][..i] == lines[..i];
        var row := ParseDemographic(lines[i]);
        if row.None? {
          ReadDemographicStops(lines, i + 1);
          return false;
        }
        DemographicLine(row.value, p0, r0, items0, done);
        done := done + [row.value];
      }
      assert lines[..|lines|] == lines;
      return true;
    }

    /** One row of the demographic file read in full: its patient, then its
        referral linked to that patient. */
    method DemographicLine(row: DemographicRow, ghost p0: map<string, ItemId>, ghost r0: map<string, ItemId>,
                           ghost items0: map<ItemId, Item>, ghost done: seq<DemographicRow>)
      requires Valid() && forall r :: r in done ==> r.patientId in patients
      requires Kept(items0, writer.items)
      requires FirstWins(p0, items0, patients, writer.items, FirstOf(PatientCalls(done, dataSetRef)))
      requires FirstWins(r0, items0, referrals, writer.items, FirstOf(ReferralCalls(done, patients)))
      modifies this`patients, this`referrals, writer
      ensures Valid() && Kept(items0, writer.items) && writer.stored == old(writer.stored)
      ensures forall r :: r in done + [row] ==> r.patientId in patients
      ensures FirstWins(p0, items0, patients, writer.items, FirstOf(PatientCalls(done + [row], dataSetRef)))
      ensures FirstWins(r0, items0, referrals, writer.items, FirstOf(ReferralCalls(done + [row], patients)))
    {
      ghost var pats1 := patients;
      var p := RowPatient(row, p0, r0, items0, done);
      RowReferral(row, p, p0, r0, items0, done, pats1);
    }

    /** The patient half of a demographic row. */
    method RowPatient(row: DemographicRow, ghost p0: map<string, ItemId>, ghost r0: map<string, ItemId>,
                      ghost items0: map<ItemId, Item>, ghost done: seq<DemographicRow>) returns (p: ItemId)
      requires Valid() && Kept(items0, writer.items)
      requires FirstWins(p0, items0, patients, writer.items, FirstOf(PatientCalls(done, dataSetRef)))
      requires FirstWins(r0, items0, referrals, writer.items, FirstOf(ReferralCalls(done, patients)))
      modifies this`patients, writer
      ensures Valid() && Kept(items0, writer.items) && writer.stored == old(writer.stored)
      ensures row.patientId in patients && p == patients[row.patientId] && Extends(old(patients), patients)
      ensures FirstWins(p0, items0, patients, writer.items, FirstOf(PatientCalls(done + [row], dataSetRef)))
      ensures FirstWins(r0, items0, referrals, writer.items, FirstOf(ReferralCalls(done, old(patients))))
    {
      ghost var items1 := writer.items;
      var made := PatientItem(row.patientId, row.ethnicity, row.gender, DatasetTitle, dataSetRef);
      p := CreatePatient(row.patientId, row.ethnicity, row.gender, DatasetTitle);
      assert (done + [row])[..|done|] == done;
      FirstWinsStep(p0, items0, old(patients), items1, patients, writer.items, PatientCalls(done, dataSetRef),
                    row.patientId, made, p);
      FirstWinsKept(r0, items0, referrals, items1, writer.items, FirstOf(ReferralCalls(done, old(patients))));
      KeptTrans(items0, items1, writer.items);
    }

    /** The referral half of a demographic row, linked to the row's patient. */
    method RowReferral(row: DemographicRow, p: ItemId, ghost p0: map<string, ItemId>, ghost r0: map<string, ItemId>,
                       ghost items0: map<ItemId, Item>, ghost done: seq<DemographicRow>, ghost pats1: map<string, ItemId>)
      requires Valid() && forall r :: r in done ==> r.patientId in pats1
      requires Kept(items0, writer.items)
      requires row.patientId in patients && p == patients[row.patientId] && Extends(pats1, patients)
      requires FirstWins(p0, items0, patients, writer.items, FirstOf(PatientCalls(done + [row], dataSetRef)))
      requires FirstWins(r0, items0, referrals, writer.items, FirstOf(ReferralCalls(done, pats1)))
      modifies this`referrals, writer
      ensures Valid() && Kept(items0, writer.items) && writer.stored == old(writer.stored)
      ensures forall r :: r in done + [row] ==> r.patientId in patients
      ensures FirstWins(p0, items0, patients, writer.items, FirstOf(PatientCalls(done + [row], dataSetRef)))
      ensures FirstWins(r0, items0, referrals, writer.items, FirstOf(ReferralCalls(done + [row], patients)))
    {
      ghost var items2 := writer.items;
      var made := ReferralItem(row.referralId, row.age, Lookup(patients, row.patientId));
      var r := CreateReferral(row.Key(), row.referralId, row.age, Some(p));
      ReferralCallsStable(done, pats1, patients);
      assert (done + [row])[..|done|] == done;
      FirstWinsStep(r0, items0, old(referrals), items2, referrals, writer.items, ReferralCalls(done, patients),
                    row.Key(), made, r);
      KeptTrans(items0, items2, writer.items);
      FirstWinsKept(p0, items0, patients, items2, writer.items, FirstOf(PatientCalls(done + [row], dataSetRef)));
    }

    /** `processContact`: a file with no header line throws at once. Each row
        is read in full (a row of fewer than seventeen cells throws and ends
        the file); a row whose patient is not cached is skipped. Otherwise the
        row's nine referral values are written over its referral when that is
        cached, and its contact is asked for, first write wins, whether or not
        the referral exists. Nothing is stored. */
    method ProcessContact(file: seq<seq<string>>) returns (completed: bool)
      requires Valid()
      modifies this`contacts, writer
      ensures Valid() && writer.stored == old(writer.stored)
      ensures file == [] ==> !completed && contacts == old(contacts) && writer.items == old(writer.items)
      ensures file != [] ==>
                var read := ReadContact(file[1..]);
                var accepted := Accepted(read.rows, patients.Keys);
                completed == !read.aborted
                && FirstWins(old(contacts), old(writer.items), contacts, writer.items,
                             FirstOf(ContactCalls(accepted, patients)))
                && Refilled(referrals, old(writer.items), writer.items, ContactFills(accepted))
                && Untouched(old(writer.items), writer.items, referrals.Values)
      ensures ContactRead(old(contacts), old(writer.items), old(writer.stored), file, completed)
    {
      completed := false;
      if file == [] {
        return;
      }
      completed := ContactRows(file[1..]);
    }

    /** What the contact rows `rows` leave behind, from contacts `c0` and
        items `items0`. */
    ghost predicate ContactsSoFar(c0: map<string, ItemId>, items0: map<ItemId, Item>, rows: seq<ContactRow>)
      reads this, writer
    {
      && (forall id :: id in items0 ==> id in writer.items)
      && FirstWins(c0, items0, contacts, writer.items, FirstOf(ContactCalls(Accepted(rows, patients.Keys), patients)))
      && Refilled(referrals, items0, writer.items, ContactFills(Accepted(rows, patients.Keys)))
      && Untouched(items0, writer.items, referrals.Values)
    }

    /** The rows of the contact file after its header. */
    method ContactRows(lines: seq<seq<string>>) returns (completed: bool)
      requires Valid()
      modifies this`contacts, writer
      ensures Valid() && writer.stored == old(writer.stored)
      ensures completed == !ReadContact(lines).aborted
      ensures ContactsSoFar(old(contacts), old(writer.items), ReadContact(lines).rows)
    {
      ghost var c0, items0 := contacts, writer.items;
      ghost var done: seq<ContactRow> := [];
      FirstWinsStart(c0, items0);
      RefilledStart(referrals, items0);
      for i := 0 to |lines|
        invariant ReadContact(lines[..i]) == Read(done, false)
        invariant Valid() && writer.stored == old(writer.stored)
        invariant ContactsSoFar(c0, items0, done)
      {
        assert lines[..i + 1][..i] == lines[..i];
        var row := ParseContact(lines[i]);
        if row.None? {
          ReadContactStops(lines, i + 1);
          return false;
        }
        ContactLine(row.value, c0, items0, done);
        done := done + [row.value];
      }
      assert lines[..|lines|] == lines;
      return true;
    }

    /** One row of the contact file read in full: skipped unless its patient
        is cached, else its referral refilled and its contact asked for. */
    method ContactLine(row: ContactRow, ghost c0: map<string, ItemId>, ghost items0: map<ItemId, Item>,
                       ghost done: seq<ContactRow>)
      requires Valid() && forall k :: k in referrals ==> referrals[k] in items0
      requires ContactsSoFar(c0, items0, done)
      modifies this`contacts, writer
      ensures Valid() && writer.stored == old(writer.stored)
      ensures ContactsSoFar(c0, items0, done + [row])
    {
      ghost var accepted := Accepted(done, patients.Keys);
      assert (done + [row])[..|done|] == done;
      if row.patientId in patients {
        assert Accepted(done + [row], patients.Keys) == accepted + [row];
        assert (accepted + [row])[..|accepted|] == accepted;
        ContactRefill(row, c0, items0, accepted);
        RowContact(row, c0, items0, accepted);
      } else {
        assert Accepted(done + [row], patients.Keys) == accepted;
      }
    }

    /** The referral half of a contact row: its nine values written over the
        referral cached under its key, if any. */
    method ContactRefill(row: ContactRow, ghost c0: map<string, ItemId>, ghost items0: map<ItemId, Item>,
                         ghost accepted: seq<ContactRow>)
      requires Valid() && forall k :: k in referrals ==> referrals[k] in items0
      requires forall id :: id in items0 ==> id in writer.items
      requires FirstWins(c0, items0, contacts, writer.items, FirstOf(ContactCalls(accepted, patients)))
      requires Refilled(referrals, items0, writer.items, ContactFills(accepted))
      requires Untouched(items0, writer.items, referrals.Values)
      modifies writer
      ensures Valid() && writer.stored == old(writer.stored) && writer.nextId == old(writer.nextId)
      ensures forall id :: id in items0 ==> id in writer.items
      ensures FirstWins(c0, items0, contacts, writer.items, FirstOf(ContactCalls(accepted, patients)))
      ensures Refilled(referrals, items0, writer.items, ContactFills(accepted) + [(row.Key(), row.Backfill())])
      ensures Untouched(items0, writer.items, referrals.Values)
    {
      var key := row.Key();
      if key in referrals {
        var id := referrals[key];
        var referral := writer.items[id];
        ghost var items1 := writer.items;
        writer.Update(id, referral.(attrs := SetAll(referral.attrs, row.Backfill())));
        RefilledHit(referrals, items0, items1, ContactFills(accepted), key, row.Backfill());
        FirstWinsUpdate(c0, items0, contacts, items1, FirstOf(ContactCalls(accepted, patients)), id, writer.items[id]);
        CachesSurvive(items1, writer.items);
      } else {
        RefilledSkip(referrals, items0, writer.items, ContactFills(accepted), key, row.Backfill());
      }
    }

    /** The contact half of a contact row. */
    method RowContact(row: ContactRow, ghost c0: map<string, ItemId>, ghost items0: map<ItemId, Item>,
                      ghost accepted: seq<ContactRow>)
      requires Valid()
      requires forall id :: id in items0 ==> id in writer.items
      requires FirstWins(c0, items0, contacts, writer.items, FirstOf(ContactCalls(accepted, patients)))
      requires Refilled(referrals, items0, writer.items, ContactFills(accepted + [row]))
      requires Untouched(items0, writer.items, referrals.Values)
      modifies this`contacts, writer
      ensures Valid() && writer.stored == old(writer.stored)
      ensures forall id :: id in items0 ==> id in writer.items
      ensures FirstWins(c0, items0, contacts, writer.items, FirstOf(ContactCalls(accepted + [row], patients)))
      ensures Refilled(referrals, items0, writer.items, ContactFills(accepted + [row]))
      ensures Untouched(items0, writer.items, referrals.Values)
    {
      ghost var items1 := writer.items;
      var made := ContactItem(row.contactDate, row.contactType, row.contactOutcome, row.team, Lookup(patients, row.patientId));
      var c := CreateContact(row.patientId, row.referralId, row.contactDate, row.contactType, row.contactOutcome, row.team);
      assert (accepted + [row])[..|accepted|] == accepted;
      FirstWinsStep(c0, items0, old(contacts), items1, contacts, writer.items, ContactCalls(accepted, patients),
                    row.Key(), made, c);
      RefilledKept(referrals, items0, items1, writer.items, ContactFills(accepted + [row]));
      UntouchedKept(items0, items1, writer.items, referrals.Values);
    }

    /** `processDiagnosis`: a file with no header line throws at once. Each
        row is read up to its assessment date (a shorter row throws and ends
        the file); a row whose patient or whose referral is not cached is
        skipped. Otherwise the row's five diagnosis values are written over its
        referral, and each later cell holding `yes` (ignoring case) creates
        and stores a Diagnostic named by the header cell above it, which throws
        when the header is too short. After the last row the referrals, then
        the contacts, are stored. */
    method ProcessDiagnosis(file: seq<seq<string>>)
      returns (completed: bool, ghost referralOrder: seq<string>, ghost contactOrder: seq<string>)
      requires Valid()
      modifies writer
      ensures Valid()
      ensures file == [] ==>
                !completed && writer.items == old(writer.items) && writer.stored == old(writer.stored)
                && writer.nextId == old(writer.nextId)
      ensures completed ==> Enumerates(referralOrder, referrals.Keys) && Enumerates(contactOrder, contacts.Keys)
      ensures file != [] ==>
                var run := DiagnosisRun(file[0], file[1..], patients, referrals);
                completed == !run.aborted
                && DiagProgress(referrals, old(writer.items), old(writer.nextId), writer.items, writer.nextId, run)
                && writer.stored == old(writer.stored) + Records(old(writer.nextId), run.made)
                                    + if completed
                                      then Flushed(writer.items, referrals, referralOrder)
                                           + Flushed(writer.items, contacts, contactOrder)
                                      else []
      ensures DiagnosisRead(old(writer.items), old(writer.nextId), old(writer.stored), file, completed)
    {
      completed, referralOrder, contactOrder := false, [], [];
      if file == [] {
        return;
      }
      completed := DiagnosisRows(file[0], file[1..]);
      if completed {
        referralOrder, contactOrder := StoreReferralsAndContacts();
      } else {
        assert writer.stored == writer.stored + [];
      }
    }

    /** The end of `processDiagnosis`: the referrals, then the contacts. */
    method StoreReferralsAndContacts() returns (ghost referralOrder: seq<string>, ghost contactOrder: seq<string>)
      requires Valid()
      modifies writer
      ensures Valid()
      ensures writer.items == old(writer.items) && writer.nextId == old(writer.nextId)
      ensures Enumerates(referralOrder, referrals.Keys) && Enumerates(contactOrder, contacts.Keys)
      ensures writer.stored == old(writer.stored) + (Flushed(writer.items, referrals, referralOrder)
                                                     + Flushed(writer.items, contacts, contactOrder))
    {
      referralOrder := StoreReferrals();
      contactOrder := StoreContacts();
    }

    /** The rows of the diagnosis file after its header. */
    method DiagnosisRows(header: seq<string>, lines: seq<seq<string>>) returns (completed: bool)
      requires Valid()
      modifies writer
      ensures Valid()
      ensures var run := DiagnosisRun(header, lines, patients, referrals);
              completed == !run.aborted
              && DiagProgress(referrals, old(writer.items), old(writer.nextId), writer.items, writer.nextId, run)
              && writer.stored == old(writer.stored) + Records(old(writer.nextId), run.made)
    {
      ghost var items0, n0 := writer.items, writer.nextId;
      ghost var run := DiagRun([], [], false);
      DiagProgressStart(referrals, items0, n0);
      for i := 0 to |lines|
        invariant Valid()
        invariant run == DiagnosisRun(header, lines[..i], patients, referrals) && !run.aborted
        invariant DiagProgress(referrals, items0, n0, writer.items, writer.nextId, run)
        invariant writer.stored == old(writer.stored) + Records(n0, run.made)
      {
        ghost var r := DiagnosisRow(header, lines[i], patients, referrals);
        DiagnosisRunSnoc(header, lines, i, patients, referrals);
        ghost var log1, next1 := writer.stored, writer.nextId;
        var aborted := DiagnosisLine(header, lines[i], items0, n0, run);
        RecordsExtend(old(writer.stored), log1, writer.stored, n0, run.made, next1, r.made);
        run := DiagRun(run.fills + r.fills, run.made + r.made, r.aborted);
        if aborted {
          DiagnosisRunStops(header, lines, i + 1, patients, referrals);
          return false;
        }
      }
      assert lines[..|lines|] == lines;
      return true;
    }

    /** One row of the diagnosis file. */
    method DiagnosisLine(header: seq<string>, line: seq<string>, ghost items0: map<ItemId, Item>,
                         ghost n0: ItemId, ghost before: DiagRun)
      returns (aborted: bool)
      requires Valid() && forall k :: k in referrals ==> referrals[k] in items0
      requires DiagProgress(referrals, items0, n0, writer.items, writer.nextId, before)
      modifies writer
      ensures Valid()
      ensures var r := DiagnosisRow(header, line, patients, referrals);
              aborted == r.aborted
              && DiagProgress(referrals, items0, n0, writer.items, writer.nextId,
                              DiagRun(before.fills + r.fills, before.made + r.made, r.aborted))
              && writer.stored == old(writer.stored) + Records(old(writer.nextId), r.made)
    {
      if |line| < 8 || line[1] !in patients || RowKey(line) !in referrals {
        assert before.fills + [] == before.fills && before.made + [] == before.made;
        return |line| < 8;
      }
      aborted := CachedDiagnosisLine(header, line, items0, n0, before);
    }

    /** A diagnosis row whose patient and referral are cached: the referral
        refilled, then the flag cells. */
    method CachedDiagnosisLine(header: seq<string>, line: seq<string>, ghost items0: map<ItemId, Item>,
                               ghost n0: ItemId, ghost before: DiagRun)
      returns (aborted: bool)
      requires Valid() && forall k :: k in referrals ==> referrals[k] in items0
      requires |line| >= 8 && line[1] in patients && RowKey(line) in referrals
      requires DiagProgress(referrals, items0, n0, writer.items, writer.nextId, before)
      modifies writer
      ensures Valid()
      ensures var r := DiagnosisRow(header, line, patients, referrals);
              aborted == r.aborted
              && DiagProgress(referrals, items0, n0, writer.items, writer.nextId,
                              DiagRun(before.fills + r.fills, before.made + r.made, r.aborted))
              && writer.stored == old(writer.stored) + Records(old(writer.nextId), r.made)
    {
      var key := RowKey(line);
      ghost var scan := YesUpTo(header, line, |line|);
      ghost var made := DiagnosticsOf(header, line, scan.cols, patients[line[1]], referrals[key]);
      assert DiagnosisRow(header, line, patients, referrals)
             == DiagRun([(key, DiagnosisBackfill(line))], made, scan.aborted);
      DiagnosisRefill(key, DiagnosisBackfill(line), items0, n0, before);
      ghost var filled := DiagRun(before.fills + [(key, DiagnosisBackfill(line))], before.made, false);
      ghost var items2, next2 := writer.items, writer.nextId;
      aborted := FlagCells(header, line, line[1], key);
      DiagProgressMade(referrals, items0, n0, items2, next2, filled, writer.items, made, aborted);
    }

    /** `setAttributeIfNotNull` on a cached referral, once per pair. */
    method DiagnosisRefill(key: string, pairs: seq<(string, Option<string>)>, ghost items0: map<ItemId, Item>,
                           ghost n0: ItemId, ghost before: DiagRun)
      requires Valid() && key in referrals && forall k :: k in referrals ==> referrals[k] in items0
      requires DiagProgress(referrals, items0, n0, writer.items, writer.nextId, before)
      modifies writer
      ensures Valid() && writer.stored == old(writer.stored) && writer.nextId == old(writer.nextId)
      ensures DiagProgress(referrals, items0, n0, writer.items, writer.nextId,
                           DiagRun(before.fills + [(key, pairs)], before.made, before.aborted))
    {
      var id := referrals[key];
      var referral := writer.items[id];
      ghost var items1 := writer.items;
      writer.Update(id, referral.(attrs := SetAll(referral.attrs, pairs)));
      CachesSurvive(items1, writer.items);
      DiagProgressFilled(referrals, items0, n0, items1, writer.nextId, before, key, pairs);
    }

    /** The flag cells of a row whose patient and referral are cached: one
        Diagnostic created and stored per `yes`, in column order. */
    method FlagCells(header: seq<string>, line: seq<string>, patientId: string, key: string)
      returns (aborted: bool)
      requires Valid() && |line| >= 8 && patientId in patients && key in referrals
      modifies writer
      ensures Valid()
      ensures var scan := YesUpTo(header, line, |line|);
              aborted == scan.aborted
              && Diagnosed(old(writer.items), old(writer.stored), old(writer.nextId),
                           DiagnosticsOf(header, line, scan.cols, patients[patientId], referrals[key]))
    {
      ghost var p, r := patients[patientId], referrals[key];
      ghost var n1 := writer.nextId;
      ghost var made: seq<Item> := [];
      ghost var cols: seq<nat> := [];
      for c := 8 to |line|
        invariant Valid() && FlagsSoFar(header, line, c, cols, made, p, r)
        invariant Diagnosed(old(writer.items), old(writer.stored), n1, made)
      {
        var stop;
        stop, cols, made := FlagStep(header, line, c, patientId, key, old(writer.items), old(writer.stored),
                                     n1, cols, made);
        if stop {
          YesUpToStops(header, line, c + 1, |line|);
          assert YesUpTo(header, line, |line|) == YesScan(cols, true);
          return true;
        }
      }
      return false;
    }

    /** Cell `c` of a diagnosis row, after the flag cells `cols` before it
        have made `made`: a `yes` cell past the header throws, any other
        `yes` cell makes one more diagnostic. */
    method FlagStep(header: seq<string>, line: seq<string>, c: nat, patientId: string, key: string,
                    ghost items0: map<ItemId, Item>, ghost log0: seq<Stored>, ghost n1: ItemId,
                    ghost cols: seq<nat>, ghost made: seq<Item>)
      returns (stop: bool, ghost cols2: seq<nat>, ghost made2: seq<Item>)
      requires Valid() && patientId in patients && key in referrals && c < |line|
      requires FlagsSoFar(header, line, c, cols, made, patients[patientId], referrals[key])
      requires Diagnosed(items0, log0, n1, made)
      modifies writer
      ensures Valid()
      ensures stop ==> cols2 == cols && made2 == made
                       && YesUpTo(header, line, c + 1) == YesScan(cols, true) && Diagnosed(items0, log0, n1, made)
      ensures !stop ==> FlagsSoFar(header, line, c + 1, cols2, made2, patients[patientId], referrals[key])
                        && Diagnosed(items0, log0, n1, made2)
    {
      ghost var p, r := patients[patientId], referrals[key];
      YesUpToSnoc(header, line, c);
      cols2, made2 := cols, made;
      if EqualsIgnoreCase(line[c], "yes") {
        if c >= |header| {
          return true, cols2, made2;
        }
        DiagnosticsOfSnoc(header, line, cols, c, p, r);
        FlagCell(header[c], line[7], patientId, key, items0, log0, n1, made);
        made2 := made + [DiagnosticItem(line[7], header[c], Some(p), Some(r))];
        cols2 := cols + [c];
      }
      stop := false;
    }

    /** The writer after the diagnostics `made` of one row, from items
        `items0`, stored log `log0` and next id `n1`: the old items kept, the
        new ones numbered from `n1` on and stored in order. */
    ghost predicate Diagnosed(items0: map<ItemId, Item>, log0: seq<Stored>, n1: ItemId, made: seq<Item>)
      reads writer
    {
      && Kept(items0, writer.items)
      && (forall id :: id in writer.items && id !in items0 ==> n1 <= id)
      && writer.nextId == n1 + |made| && MadeFrom(writer.items, n1, made)
      && writer.stored == log0 + Records(n1, made)
    }

    /** A `yes` cell: `store(createDiagnostic(...))` with the header cell as
        observation, after the diagnostics `made` so far. */
    method FlagCell(observation: string, assessmentDate: string, patientId: string, key: string,
                    ghost items0: map<ItemId, Item>, ghost log0: seq<Stored>, ghost n1: ItemId, ghost made: seq<Item>)
      requires Valid() && patientId in patients && key in referrals
      requires Diagnosed(items0, log0, n1, made)
      modifies writer
      ensures Valid()
      ensures Diagnosed(items0, log0, n1,
                        made + [DiagnosticItem(assessmentDate, observation, Some(patients[patientId]), Some(referrals[key]))])
    {
      ghost var item := DiagnosticItem(assessmentDate, observation, Some(patients[patientId]), Some(referrals[key]));
      ghost var items1, log1 := writer.items, writer.stored;
      assert Lookup(patients, patientId) == Some(patients[patientId]);
      assert Lookup(referrals, key) == Some(referrals[key]);
      var d := CreateDiagnostic(patientId, key, assessmentDate, observation);
      KeptTrans(items0, items1, writer.items);
      MadeFromSnoc(items1, writer.items, n1, made, d, item);
      writer.Store(d);
      RecordsLogSnoc(log0, log1, writer.stored, n1, made, d, item);
    }

    /** `storePatients`: every cached patient, once, in the map's order. */
    method StorePatients() returns (ghost order: seq<string>)
      requires Valid()
      modifies writer
      ensures Valid()
      ensures writer.items == old(writer.items) && writer.nextId == old(writer.nextId)
      ensures Enumerates(order, patients.Keys)
      ensures writer.stored == old(writer.stored) + Flushed(writer.items, patients, order)
    {
      order := writer.StoreAll(patients);
    }

    /** `storeReferrals`: every cached referral, once. */
    method StoreReferrals() returns (ghost order: seq<string>)
      requires Valid()
      modifies writer
      ensures Valid()
      ensures writer.items == old(writer.items) && writer.nextId == old(writer.nextId)
      ensures Enumerates(order, referrals.Keys)
      ensures writer.stored == old(writer.stored) + Flushed(writer.items, referrals, order)
    {
      order := writer.StoreAll(referrals);
    }

    /** `storeContacts`: every cached contact, once. */
    method StoreContacts() returns (ghost order: seq<string>)
      requires Valid()
      modifies writer
      ensures Valid()
      ensures writer.items == old(writer.items) && writer.nextId == old(writer.nextId)
      ensures Enumerates(order, contacts.Keys)
      ensures writer.stored == old(writer.stored) + Flushed(writer.items, contacts, order)
    {
      order := writer.StoreAll(contacts);
    }
  }
}
