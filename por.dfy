/**
  The POR converter. One object serves a whole run: its caches of patients,
  referrals, contacts and datasets, its current dataset and site type, and
  the referral values held in its instance fields persist from row to row
  and from file to file. Items reach the target only through the writer's
  `Store`, either one by one or in a flush of a cache.
 */
module Por {
  import opened JavaText
  import opened Cleaners
  import opened Items
  import opened ItemStore
  import opened SiteRegistry
  import opened PorItems
  import opened PorRows
  import opened PorLines

  /** A null patient id is looked up from the referral id in `ref2pat`. */
  function ResolvePatient(ref2pat: map<Option<string>, Option<string>>, patientId: Option<string>,
                          referralId: Option<string>): Option<string>
  {
    if patientId.Some? then patientId
    else if referralId in ref2pat then ref2pat[referralId]
    else None
  }

  /** The cache key of the contact of a patient and referral. */
  function ContactKey(ref2pat: map<Option<string>, Option<string>>, patientId: Option<string>,
                      referralId: Option<string>): string
  {
    PatRefId(ResolvePatient(ref2pat, patientId, referralId), referralId)
  }

  /** The contact cache key of a `createContact` call. */
  function CallKey(ref2pat: map<Option<string>, Option<string>>, c: ContactLocals): string {
    ContactKey(ref2pat, c.patientId, c.referralId)
  }

  /** The first of `calls` with the given contact key, if any. */
  function FirstCall(ref2pat: map<Option<string>, Option<string>>, calls: seq<ContactLocals>, key: string)
    : (r: Option<ContactLocals>)
    ensures r.Some? ==> r.value in calls && CallKey(ref2pat, r.value) == key
    ensures r.None? <==> forall c :: c in calls ==> CallKey(ref2pat, c) != key
  {
    if calls == [] then None
    else if CallKey(ref2pat, calls[0]) == key then Some(calls[0])
    else FirstCall(ref2pat, calls[1..], key)
  }

  /** A later call never displaces the first one with its key. */
  lemma {:induction false} FirstCallSnoc(ref2pat: map<Option<string>, Option<string>>, calls: seq<ContactLocals>,
                                         c: ContactLocals, key: string)
    ensures FirstCall(ref2pat, calls + [c], key)
            == if FirstCall(ref2pat, calls, key).Some? then FirstCall(ref2pat, calls, key)
               else if CallKey(ref2pat, c) == key then Some(c) else None
  {
    if calls != [] {
      assert (calls + [c])[1..] == calls[1..] + [c];
      FirstCallSnoc(ref2pat, calls[1..], c, key);
    }
  }

  /** The contact `createContact` makes for a call whose key is new. */
  function NewContact(patients: map<Option<string>, ItemId>, referrals: map<string, ItemId>,
                      ref2pat: map<Option<string>, Option<string>>, c: ContactLocals): Item
  {
    ContactItem(c.fields, Lookup(patients, ResolvePatient(ref2pat, c.patientId, c.referralId)),
                Lookup(referrals, CallKey(ref2pat, c)))
  }

  /** The column layout of the current dataset; none when it is null. */
  function ContactLayoutOf(dataSet: Option<string>): Option<ContactLayout> {
    if dataSet.Some? then Some(LayoutOf(dataSet.value)) else None
  }

  /** The contact cache after `calls`: every call's key is cached, a key
      cached before keeps its contact, and a new key holds the contact of the
      first call that had it. */
  ghost predicate ContactsAfter(contacts0: map<string, ItemId>, items0: map<ItemId, Item>,
                                contacts: map<string, ItemId>, items: map<ItemId, Item>,
                                patients: map<Option<string>, ItemId>, referrals: map<string, ItemId>,
                                ref2pat: map<Option<string>, Option<string>>, calls: seq<ContactLocals>)
  {
    Extends(contacts0, contacts) && Kept(items0, items)
    && (forall c :: c in calls ==> CallKey(ref2pat, c) in contacts)
    && (forall k :: k in contacts ==> k in contacts0 || FirstCall(ref2pat, calls, k).Some?)
    && (forall k :: k in contacts && k !in contacts0 ==>
          contacts[k] !in items0 && contacts[k] in items
          && items[contacts[k]] == NewContact(patients, referrals, ref2pat, FirstCall(ref2pat, calls, k).value))
  }

  /** A call whose key is cached changes nothing; one whose key is new caches
      a fresh contact made from it. */
  lemma ContactsAfterSnoc(contacts0: map<string, ItemId>, items0: map<ItemId, Item>,
                          contacts1: map<string, ItemId>, items1: map<ItemId, Item>,
                          contacts2: map<string, ItemId>, items2: map<ItemId, Item>,
                          patients: map<Option<string>, ItemId>, referrals: map<string, ItemId>,
                          ref2pat: map<Option<string>, Option<string>>, calls: seq<ContactLocals>,
                          c: ContactLocals, id: ItemId)
    requires ContactsAfter(contacts0, items0, contacts1, items1, patients, referrals, ref2pat, calls)
    requires CallKey(ref2pat, c) in contacts1 ==> contacts2 == contacts1 && items2 == items1
    requires CallKey(ref2pat, c) !in contacts1 ==>
               id !in items1 && contacts2 == contacts1[CallKey(ref2pat, c) := id]
               && items2 == items1[id := NewContact(patients, referrals, ref2pat, c)]
    ensures ContactsAfter(contacts0, items0, contacts2, items2, patients, referrals, ref2pat, calls + [c])
  {
    forall d | d in calls + [c]
      ensures CallKey(ref2pat, d) in contacts2
    {
      if d != c {
        assert d in calls;
      }
    }
    if CallKey(ref2pat, c) in contacts1 {
      CachedCall(contacts0, items0, contacts1, items1, patients, referrals, ref2pat, calls, c);
    } else {
      NewCall(contacts0, items0, contacts1, items1, patients, referrals, ref2pat, calls, c, id);
    }
  }

  lemma CachedCall(contacts0: map<string, ItemId>, items0: map<ItemId, Item>,
                   contacts1: map<string, ItemId>, items1: map<ItemId, Item>,
                   patients: map<Option<string>, ItemId>, referrals: map<string, ItemId>,
                   ref2pat: map<Option<string>, Option<string>>, calls: seq<ContactLocals>, c: ContactLocals)
    requires ContactsAfter(contacts0, items0, contacts1, items1, patients, referrals, ref2pat, calls)
    requires CallKey(ref2pat, c) in contacts1
    ensures forall k :: k in contacts1 && k !in contacts0 ==>
              FirstCall(ref2pat, calls + [c], k) == FirstCall(ref2pat, calls, k)
  {
    forall k | k in contacts1 && k !in contacts0
      ensures FirstCall(ref2pat, calls + [c], k) == FirstCall(ref2pat, calls, k)
    {
      FirstCallSnoc(ref2pat, calls, c, k);
    }
  }

  lemma NewCall(contacts0: map<string, ItemId>, items0: map<ItemId, Item>,
                contacts1: map<string, ItemId>, items1: map<ItemId, Item>,
                patients: map<Option<string>, ItemId>, referrals: map<string, ItemId>,
                ref2pat: map<Option<string>, Option<string>>, calls: seq<ContactLocals>, c: ContactLocals, id: ItemId)
    requires ContactsAfter(contacts0, items0, contacts1, items1, patients, referrals, ref2pat, calls)
    requires CallKey(ref2pat, c) !in contacts1 && id !in items1
    ensures var contacts2 := contacts1[CallKey(ref2pat, c) := id];
            var items2 := items1[id := NewContact(patients, referrals, ref2pat, c)];
            forall k :: k in contacts2 && k !in contacts0 ==>
              FirstCall(ref2pat, calls + [c], k).Some?
              && contacts2[k] !in items0 && contacts2[k] in items2
              && items2[contacts2[k]] == NewContact(patients, referrals, ref2pat, FirstCall(ref2pat, calls + [c], k).value)
  {
    var key := CallKey(ref2pat, c);
    var contacts2 := contacts1[key := id];
    var items2 := items1[id := NewContact(patients, referrals, ref2pat, c)];
    forall k | k in contacts2 && k !in contacts0
      ensures FirstCall(ref2pat, calls + [c], k).Some?
      ensures contacts2[k] !in items0 && contacts2[k] in items2
      ensures items2[contacts2[k]] == NewContact(patients, referrals, ref2pat, FirstCall(ref2pat, calls + [c], k).value)
    {
      FirstCallSnoc(ref2pat, calls, c, k);
      if k == key {
        assert FirstCall(ref2pat, calls, key).None?;
      } else {
        assert contacts2[k] == contacts1[k] != id;
      }
    }
  }

  /** What a Bradford merge may do to an item: keep its class, its links and
      every attribute outside the merged names. */
  ghost predicate Evolves(before: Item, after: Item) {
    after.className == before.className && after.refs == before.refs
    && forall n :: n !in MergedNames ==>
         (n in after.attrs <==> n in before.attrs) && (n in before.attrs ==> after.attrs[n] == before.attrs[n])
  }

  /** Every item survives, changed at most as a Bradford merge changes it. */
  ghost predicate AllEvolve(before: map<ItemId, Item>, after: map<ItemId, Item>) {
    forall id :: id in before ==> id in after && Evolves(before[id], after[id])
  }

  /** Every item survives with its class. */
  ghost predicate SameClasses(before: map<ItemId, Item>, after: map<ItemId, Item>) {
    forall id :: id in before ==> id in after && after[id].className == before[id].className
  }

  /** From `items0`, `n0`, `s0` the writer reached `items`, `n`, `s` by
      creating and storing exactly `xs`, one after the other, and changed no
      older item. */
  ghost predicate Appended(items0: map<ItemId, Item>, n0: ItemId, s0: seq<Stored>,
                           items: map<ItemId, Item>, n: ItemId, s: seq<Stored>, xs: seq<Item>)
  {
    Kept(items0, items) && n == n0 + |xs| && s == s0 + Records(n0, xs)
  }

  /** Two runs one after the other are one run. */
  lemma AppendedChain(items0: map<ItemId, Item>, n0: ItemId, s0: seq<Stored>,
                      items1: map<ItemId, Item>, n1: ItemId, s1: seq<Stored>,
                      items2: map<ItemId, Item>, n2: ItemId, s2: seq<Stored>, xs: seq<Item>, ys: seq<Item>)
    requires Appended(items0, n0, s0, items1, n1, s1, xs) && Appended(items1, n1, s1, items2, n2, s2, ys)
    ensures Appended(items0, n0, s0, items2, n2, s2, xs + ys)
  {
    RecordsAppend(n0, xs, ys);
  }

  /** The fragment of a site's file name that selects its row pipeline. */
  function SiteFragment(p: Pipeline): (fragment: string)
    requires RowPipeline(p)
    ensures exists i :: 0 <= i < |SiteTable| && SiteTable[i].fragment == fragment
  {
    match p
    case CamdenFile => assert SiteTable[2].fragment == "Camden"; "Camden"
    case StokeFile => assert SiteTable[12].fragment == "Stoke"; "Stoke"
    case BradfordFile => assert SiteTable[1].fragment == "Bradford"; "Bradford"
    case LewishamFile => assert SiteTable[4].fragment == "Lewisham"; "Lewisham"
    case SunderlandFile => assert SiteTable[13].fragment == "Sunderland"; "Sunderland"
  }

  /** `process` runs a site's row pipeline only on a file whose name holds the
      site's fragment, so `setDataset` has then always set a dataset. */
  lemma SiteFileHasDataset(fileName: string, p: Pipeline, dataSet: Option<string>, siteType: Option<string>)
    requires p in Pipelines(fileName) && RowPipeline(p)
    ensures Contains(fileName, SiteFragment(p))
    ensures Resolve(SiteTable, fileName, dataSet, siteType).0.Some?
  {
    SiteFileNamesSite(fileName, p);
    var i :| 0 <= i < |SiteTable| && SiteTable[i].fragment == SiteFragment(p);
    ResolveFound(SiteTable, fileName, dataSet, siteType, i);
  }

  lemma SiteFileNamesSite(fileName: string, p: Pipeline)
    requires p in Pipelines(fileName) && RowPipeline(p)
    ensures Contains(fileName, SiteFragment(p))
  {
    FirstExclusiveFound(fileName, Exclusive);
    var first := FirstExclusive(fileName, Exclusive);
    if first.Some? {
      assert Pipelines(fileName) == [first.value];
      var i :| 0 <= i < |Exclusive| && Contains(fileName, Exclusive[i].0) && first.value == Exclusive[i].1;
      ExclusiveFragment(i);
    } else {
      assert p in SharedRun(fileName, Shared);
      SharedDistinct();
      SharedRunExactly(fileName, Shared);
      var k :| 0 <= k < |Shared| && Shared[k].1 == p;
      assert MentionsAny(fileName, Shared[k].0);
      SharedFragment(k);
    }
  }

  lemma ExclusiveFragment(i: nat)
    requires i < |Exclusive| && RowPipeline(Exclusive[i].1)
    ensures Exclusive[i].0 == SiteFragment(Exclusive[i].1)
  {
  }

  lemma SharedFragment(k: nat)
    requires k < |Shared| && RowPipeline(Shared[k].1)
    ensures Shared[k].0 == [SiteFragment(Shared[k].1)]
  {
  }

  lemma EvolvesTrans(items0: map<ItemId, Item>, items1: map<ItemId, Item>, items2: map<ItemId, Item>)
    requires AllEvolve(items0, items1) && AllEvolve(items1, items2)
    ensures AllEvolve(items0, items2)
  {
  }

  lemma ExtendsTrans<K>(cache0: map<K, ItemId>, cache1: map<K, ItemId>, cache2: map<K, ItemId>)
    requires Extends(cache0, cache1) && Extends(cache1, cache2)
    ensures Extends(cache0, cache2)
  {
  }

  /** A cache that gains an entry for an item of its class stays valid. */
  lemma CacheAdd<K>(cache: map<K, ItemId>, items: map<ItemId, Item>, className: string, key: K, id: ItemId)
    requires CachedAs(cache, items, className) && id in items && items[id].className == className
    ensures CachedAs(cache[key := id], items, className)
  {
  }

  class PorConverter {
    const writer: Writer
    var patients: map<Option<string>, ItemId>
    var referrals: map<string, ItemId>
    var contacts: map<string, ItemId>
    var dataSets: map<Option<string>, ItemId>
    var ref2pat: map<Option<string>, Option<string>>
    var dataSetRef: Option<ItemId>
    var dataSet: Option<string>
    var siteType: Option<string>
    /** The referral values kept in instance fields between rows and files. */
    var carried: ReferralFields

    ghost predicate Valid()
      reads this, writer
    {
      writer.Valid() && CachesIn(writer.items)
    }

    /** Each cache names items of its class, and the current dataset is a DataSet. */
    ghost predicate CachesIn(items: map<ItemId, Item>)
      reads this
    {
      CachedAs(patients, items, "Patient")
      && CachedAs(referrals, items, "Referral")
      && CachedAs(contacts, items, "Contact")
      && CachedAs(dataSets, items, "DataSource")
      && (dataSetRef.Some? ==> dataSetRef.value in items && items[dataSetRef.value].className == "DataSet")
    }

    /** The caches stay valid while every item keeps its class. */
    lemma CachesSurvive(before: map<ItemId, Item>, after: map<ItemId, Item>)
      requires CachesIn(before) && SameClasses(before, after)
      ensures CachesIn(after)
    {
    }

    constructor(w: Writer)
      requires w.Valid()
      ensures Valid() && writer == w
      ensures patients == map[] && referrals == map[] && contacts == map[] && dataSets == map[]
      ensures ref2pat == map[] && dataSetRef == None && dataSet == None && siteType == None
      ensures carried == NoReferralFields
    {
      writer := w;
      patients := map[];
      referrals := map[];
      contacts := map[];
      dataSets := map[];
      ref2pat := map[];
      dataSetRef := None;
      dataSet := None;
      siteType := None;
      carried := NoReferralFields;
    }

    /** `createDataSet`: a site seen for the first time gets a DataSource and a
        DataSet, both stored at once, and becomes the current dataset; a site
        seen before changes nothing, not even the current dataset. */
    method CreateDataSet(site: Option<string>, siteType: Option<string>)
      requires Valid()
      modifies this`dataSets, this`dataSetRef, writer
      ensures Valid() && site in dataSets
      ensures site in old(dataSets) ==>
                dataSets == old(dataSets) && dataSetRef == old(dataSetRef)
                && writer.items == old(writer.items) && writer.nextId == old(writer.nextId)
                && writer.stored == old(writer.stored)
      ensures site !in old(dataSets) ==>
                var source := old(writer.nextId);
                dataSets == old(dataSets)[site := source] && dataSetRef == Some(source + 1)
                && writer.items == old(writer.items)[source := DataSourceItem()]
                                                    [source + 1 := DataSetItem(site, siteType, source)]
                && writer.nextId == source + 2
                && writer.stored == old(writer.stored) + [Stored(source, DataSourceItem()),
                                                          Stored(source + 1, DataSetItem(site, siteType, source))]
    {
      if site !in dataSets {
        var source, ds := StoreDataSet(site, siteType);
        dataSetRef := Some(ds);
        dataSets := dataSets[site := source];
      }
    }

    /** The DataSource and DataSet of a new site, created and stored in that order. */
    method StoreDataSet(site: Option<string>, siteType: Option<string>) returns (source: ItemId, ds: ItemId)
      requires Valid()
      modifies writer
      ensures Valid()
      ensures source == old(writer.nextId) && ds == source + 1 && writer.nextId == source + 2
      ensures writer.items == old(writer.items)[source := DataSourceItem()][ds := DataSetItem(site, siteType, source)]
      ensures writer.stored == old(writer.stored) + [Stored(source, DataSourceItem()),
                                                     Stored(ds, DataSetItem(site, siteType, source))]
    {
      ghost var items0, stored0 := writer.items, writer.stored;
      source := writer.Create(DataSourceItem());
      ds := writer.Create(DataSetItem(site, siteType, source));
      writer.Store(source);
      writer.Store(ds);
      CachesSurvive(items0, writer.items);
    }

    /** `setDataset`: the `if` chain over the site registry, then `createDataSet`
        for the dataset it leaves. */
    method SetDataset(fileName: string)
      requires Valid()
      modifies this`dataSet, this`siteType, this`dataSets, this`dataSetRef, writer
      ensures Valid() && dataSet in dataSets
      ensures (dataSet, siteType) == Resolve(SiteTable, fileName, old(dataSet), old(siteType))
      ensures dataSet in old(dataSets) ==>
                dataSets == old(dataSets) && dataSetRef == old(dataSetRef)
                && writer.items == old(writer.items) && writer.nextId == old(writer.nextId)
                && writer.stored == old(writer.stored)
      ensures dataSet !in old(dataSets) ==>
                var source := old(writer.nextId);
                dataSets == old(dataSets)[dataSet := source] && dataSetRef == Some(source + 1)
                && writer.items == old(writer.items)[source := DataSourceItem()]
                                                    [source + 1 := DataSetItem(dataSet, siteType, source)]
                && writer.nextId == source + 2
                && writer.stored == old(writer.stored) + [Stored(source, DataSourceItem()),
                                                          Stored(source + 1, DataSetItem(dataSet, siteType, source))]
    {
      PickSite(fileName);
      CreateDataSet(dataSet, siteType);
    }

    /** The `if` chain of `setDataset`, one `if` per registry entry in the
        registry's order: each fragment found in the file name sets the dataset
        name and site type, so the last one found wins. */
    method PickSite(fileName: string)
      modifies this`dataSet, this`siteType
      ensures (dataSet, siteType) == Resolve(SiteTable, fileName, old(dataSet), old(siteType))
    {
      for k := 0 to |SiteTable|
        invariant (dataSet, siteType) == Resolve(SiteTable[..k], fileName, old(dataSet), old(siteType))
      {
        var site := SiteTable[k];
        if Contains(fileName, site.fragment) {
          dataSet := Some(site.name);
          siteType := Some(site.siteType);
        }
        ResolveStep(SiteTable, fileName, old(dataSet), old(siteType), k);
      }
      assert SiteTable[..|SiteTable|] == SiteTable;
    }

    /** `createPatient`: the patient cached under the id, created on first use
        with the given values and the current dataset. */
    method CreatePatient(patientId: Option<string>, ethnicity: Option<string>, gender: Option<string>,
                         site: Option<string>) returns (id: ItemId)
      requires Valid()
      modifies this`patients, writer
      ensures Valid() && patientId in patients && id == patients[patientId]
      ensures patientId in old(patients) ==>
                id == old(patients[patientId]) && patients == old(patients)
                && writer.items == old(writer.items) && writer.nextId == old(writer.nextId)
      ensures patientId !in old(patients) ==>
                id == old(writer.nextId) && patients == old(patients)[patientId := id]
                && writer.items == old(writer.items)[id := PatientItem(patientId, ethnicity, gender, site, dataSetRef)]
                && writer.nextId == id + 1
      ensures writer.stored == old(writer.stored)
    {
      if patientId in patients {
        id := patients[patientId];
      } else {
        ghost var items0 := writer.items;
        id := writer.Create(PatientItem(patientId, ethnicity, gender, site, dataSetRef));
        CachesSurvive(items0, writer.items);
        CacheAdd(patients, writer.items, "Patient", patientId, id);
        patients := patients[patientId := id];
      }
    }

    /** `createReferral`: the referral cached under `patientId-referralId`,
        created on first use and linked to the patient when one is cached. When
        it exists and the current dataset is Bradford (ignoring case), the
        non-null values other than age and locality are written over it. A
        null current dataset makes that test throw (`r == None`). */
    method CreateReferral(patientId: Option<string>, referralId: Option<string>, f: ReferralFields)
      returns (r: Option<ItemId>)
      requires Valid()
      modifies this`referrals, writer
      ensures Valid()
      ensures writer.stored == old(writer.stored)
      ensures var key := PatRefId(patientId, referralId);
              if key !in old(referrals) then
                r == Some(old(writer.nextId)) && referrals == old(referrals)[key := r.value]
                && writer.items == old(writer.items)[r.value := ReferralItem(referralId, f, Lookup(patients, patientId))]
                && writer.nextId == r.value + 1
              else if dataSet.None? then
                r == None && referrals == old(referrals) && writer.items == old(writer.items)
                && writer.nextId == old(writer.nextId)
              else
                r == Some(old(referrals[key])) && referrals == old(referrals) && writer.nextId == old(writer.nextId)
                && writer.items == if EqualsIgnoreCase(dataSet.value, "bradford")
                                   then old(writer.items)[r.value := BradfordMerge(old(writer.items[r.value]), f)]
                                   else old(writer.items)
    {
      var key := PatRefId(patientId, referralId);
      ghost var items0 := writer.items;
      if key !in referrals {
        var id := writer.Create(ReferralItem(referralId, f, Lookup(patients, patientId)));
        CachesSurvive(items0, writer.items);
        CacheAdd(referrals, writer.items, "Referral", key, id);
        referrals := referrals[key := id];
        r := Some(id);
      } else if dataSet.None? {
        r := None;
      } else {
        var id := referrals[key];
        if EqualsIgnoreCase(dataSet.value, "bradford") {
          writer.Update(id, BradfordMerge(writer.items[id], f));
          CachesSurvive(items0, writer.items);
        }
        r := Some(id);
      }
    }

    /** `createContact`: the contact cached under its patient and referral
        (a null patient id is looked up from the referral id), created on first
        use and linked to whichever of its patient and referral are cached. */
    method CreateContact(patientId: Option<string>, referralId: Option<string>, f: ContactFields)
      returns (id: ItemId)
      requires Valid()
      modifies this`contacts, writer
      ensures Valid() && writer.stored == old(writer.stored)
      ensures var key := ContactKey(ref2pat, patientId, referralId);
              key in contacts && id == contacts[key]
              && if key in old(contacts) then
                   id == old(contacts[key]) && contacts == old(contacts)
                   && writer.items == old(writer.items) && writer.nextId == old(writer.nextId)
                 else
                   id == old(writer.nextId) && contacts == old(contacts)[key := id] && writer.nextId == id + 1
                   && writer.items == old(writer.items)[id := ContactItem(f,
                        Lookup(patients, ResolvePatient(ref2pat, patientId, referralId)), Lookup(referrals, key))]
    {
      var pid := ResolvePatient(ref2pat, patientId, referralId);
      var key := PatRefId(pid, referralId);
      if key in contacts {
        id := contacts[key];
      } else {
        ghost var items0 := writer.items;
        id := writer.Create(ContactItem(f, Lookup(patients, pid), Lookup(referrals, key)));
        CachesSurvive(items0, writer.items);
        CacheAdd(contacts, writer.items, "Contact", key, id);
        contacts := contacts[key := id];
      }
    }

    /** `storeContact`: a new contact, not cached, stored at once. */
    method StoreContact(patientId: Option<string>, referralId: Option<string>, f: ContactFields)
      returns (id: ItemId)
      requires Valid()
      modifies writer
      ensures Valid()
      ensures var key := ContactKey(ref2pat, patientId, referralId);
              var item := ContactItem(f, Lookup(patients, ResolvePatient(ref2pat, patientId, referralId)),
                                      Lookup(referrals, key));
              id == old(writer.nextId) && writer.nextId == id + 1
              && writer.items == old(writer.items)[id := item]
              && writer.stored == old(writer.stored) + [Stored(id, item)]
    {
      var pid := ResolvePatient(ref2pat, patientId, referralId);
      var key := PatRefId(pid, referralId);
      id := writer.Create(ContactItem(f, Lookup(patients, pid), Lookup(referrals, key)));
      writer.Store(id);
    }

    /** `storeOutcome`: the outcome takes the next id, then its patient is
        fetched or created (with the current dataset as its site); the outcome
        always links the patient, the referral only when cached, and is stored. */
    method StoreOutcome(patientId: Option<string>, referralId: Option<string>,
                        attrs: seq<(string, Option<string>)>) returns (id: ItemId)
      requires Valid()
      modifies this`patients, writer
      ensures Valid() && patientId in patients
      ensures id == old(writer.nextId)
      ensures var item := OutcomeItem(attrs, patients[patientId], Lookup(referrals, PatRefId(patientId, referralId)));
              writer.stored == old(writer.stored) + [Stored(id, item)]
              && if patientId in old(patients) then
                   patients == old(patients) && writer.nextId == id + 1
                   && writer.items == old(writer.items)[id := item]
                 else
                   patients == old(patients)[patientId := id + 1] && writer.nextId == id + 2
                   && writer.items == old(writer.items)[id + 1 := PatientItem(patientId, None, None, dataSet, dataSetRef)]
                                                       [id := item]
    {
      id := writer.Reserve();
      ghost var items0 := writer.items;
      var patient := CreatePatient(patientId, None, None, dataSet);
      var item := OutcomeItem(attrs, patient, Lookup(referrals, PatRefId(patientId, referralId)));
      ghost var items1 := writer.items;
      assert items1 == if patientId in old(patients) then items0
                       else items0[id + 1 := PatientItem(patientId, None, None, dataSet, dataSetRef)];
      writer.Fill(id, item);
      writer.Store(id);
      CachesSurvive(items1, writer.items);
    }

    /** `createDiagnostic`: a new Diagnostic linked to whichever of its patient
        and referral are cached; the caller stores it. */
    method CreateDiagnostic(patientId: Option<string>, referralId: Option<string>,
                            attrs: seq<(string, Option<string>)>) returns (id: ItemId)
      requires Valid()
      modifies writer
      ensures Valid()
      ensures id == old(writer.nextId) && writer.nextId == id + 1 && writer.stored == old(writer.stored)
      ensures writer.items == old(writer.items)[id := DiagnosticItem(attrs, Lookup(patients, patientId),
                                                                     Lookup(referrals, PatRefId(patientId, referralId)))]
    {
      id := writer.Create(DiagnosticItem(attrs, Lookup(patients, patientId),
                                         Lookup(referrals, PatRefId(patientId, referralId))));
    }

    /** `createAdditionalData`: a name/value item of the given class, linked to
        the cached patient, and to the cached referral when a referral id is given. */
    method CreateAdditionalData(patientId: Option<string>, referralId: Option<string>, className: string,
                                name: Option<string>, value: Option<string>) returns (id: ItemId)
      requires Valid()
      modifies writer
      ensures Valid()
      ensures id == old(writer.nextId) && writer.nextId == id + 1 && writer.stored == old(writer.stored)
      ensures writer.items == old(writer.items)[id := AdditionalItem(className, name, value, Lookup(patients, patientId),
                                if referralId.Some? then Lookup(referrals, PatRefId(patientId, referralId)) else None)]
    {
      var referral := if referralId.Some? then Lookup(referrals, PatRefId(patientId, referralId)) else None;
      id := writer.Create(AdditionalItem(className, name, value, Lookup(patients, patientId), referral));
    }

    /** `storePatients`: every cached patient, once, in the map's order. */
    method StorePatients() returns (ghost order: seq<Option<string>>)
      requires Valid()
      modifies writer
      ensures Valid()
      ensures writer.items == old(writer.items) && writer.nextId == old(writer.nextId)
      ensures Enumerates(order, patients.Keys)
      ensures writer.stored == old(writer.stored) + Flushed(writer.items, patients, order)
    {
      order := writer.StoreAll(patients);
    }

    /** `storeReferrals`: every cached referral, once. */
    method StoreReferrals() returns (ghost order: seq<string>)
      requires Valid()
      modifies writer
      ensures Valid()
      ensures writer.items == old(writer.items) && writer.nextId == old(writer.nextId)
      ensures Enumerates(order, referrals.Keys)
      ensures writer.stored == old(writer.stored) + Flushed(writer.items, referrals, order)
    {
      order := writer.StoreAll(referrals);
    }

    /** `storeContacts`: every cached contact, once. */
    method StoreContacts() returns (ghost order: seq<string>)
      requires Valid()
      modifies writer
      ensures Valid()
      ensures writer.items == old(writer.items) && writer.nextId == old(writer.nextId)
      ensures Enumerates(order, contacts.Keys)
      ensures writer.stored == old(writer.stored) + Flushed(writer.items, contacts, order)
    {
      order := writer.StoreAll(contacts);
    }

    /** Since the writer stood at `n0` with `s0` stored, it has created and
        stored exactly `xs`, one after the other, and changed no older item. */
    ghost predicate StoredRun(items0: map<ItemId, Item>, n0: ItemId, s0: seq<Stored>, xs: seq<Item>)
      reads this, writer
    {
      Valid() && Appended(items0, n0, s0, writer.items, writer.nextId, writer.stored, xs)
    }

    /** One slot of the slot loop: `storeContact` with the slot's cells. */
    method StoreSlot(kind: SlotKind, line: seq<string>, j: nat, patientId: string, referralId: string,
                     outcome: Option<string>, ghost items0: map<ItemId, Item>, ghost n0: ItemId,
                     ghost s0: seq<Stored>, ghost done: seq<nat>)
      requires SlotsFit(kind, line, done) && j + SlotWidth(kind) <= |line|
      requires StoredRun(items0, n0, s0, SlotItems(kind, line, done, outcome, Lookup(patients, Some(patientId)),
                                                   Lookup(referrals, PatRefId(Some(patientId), Some(referralId)))))
      modifies writer
      ensures SlotsFit(kind, line, done + [j])
      ensures StoredRun(items0, n0, s0, SlotItems(kind, line, done + [j], outcome, Lookup(patients, Some(patientId)),
                                                  Lookup(referrals, PatRefId(Some(patientId), Some(referralId)))))
    {
      ghost var p, r := Lookup(patients, Some(patientId)), Lookup(referrals, PatRefId(Some(patientId), Some(referralId)));
      var id := StoreContact(Some(patientId), Some(referralId), SlotContact(kind, line, j, outcome));
      SlotItemsSnoc(kind, line, done, j, outcome, p, r);
      RecordsSnoc(n0, SlotItems(kind, line, done, outcome, p, r), writer.items[id]);
    }

    /** The slot loop of a Camden (`j <= header.length - 1`) or Stoke on Trent
        (`j < 317`) row: one contact stored per slot, with the row's patient
        and referral, until the scan stops or throws. */
    method StoreSlots(kind: SlotKind, bound: nat, line: seq<string>, patientId: string, referralId: string,
                      outcome: Option<string>) returns (completed: bool)
      requires Valid()
      modifies writer
      ensures SlotsFit(kind, line, SlotScan(line, SlotStart(kind), bound, SlotWidth(kind), SlotStopsOnNull(kind)).starts)
      ensures var scan := SlotScan(line, SlotStart(kind), bound, SlotWidth(kind), SlotStopsOnNull(kind));
              completed == !scan.aborted
              && StoredRun(old(writer.items), old(writer.nextId), old(writer.stored),
                           SlotItems(kind, line, scan.starts, outcome, Lookup(patients, Some(patientId)),
                                     Lookup(referrals, PatRefId(Some(patientId), Some(referralId)))))
    {
      var w, stop := SlotWidth(kind), SlotStopsOnNull(kind);
      ghost var p, r := Lookup(patients, Some(patientId)), Lookup(referrals, PatRefId(Some(patientId), Some(referralId)));
      ghost var scan := SlotScan(line, SlotStart(kind), bound, w, stop);
      SlotScanStarts(line, SlotStart(kind), bound, w, stop);
      ghost var items0, n0, s0 := writer.items, writer.nextId, writer.stored;
      ghost var done: seq<nat> := [];
      ghost var rest := scan;
      var j := SlotStart(kind);
      assert StoredRun(writer.items, writer.nextId, writer.stored, []);
      while j < bound
        invariant rest == SlotScan(line, j, bound, w, stop)
        invariant scan == Scan(done + rest.starts, rest.aborted)
        invariant SlotsFit(kind, line, done)
        invariant StoredRun(items0, n0, s0, SlotItems(kind, line, done, outcome, p, r))
        decreases bound - j
      {
        if j >= |line| {
          assert rest == Scan([], true);
          assert scan.starts == done;
          return false;
        }
        if line[j] == "" || (stop && Contains(line[j], "NULL")) {
          assert rest == Scan([], false);
          assert scan.starts == done;
          break;
        }
        if j + w > |line| {
          assert rest == Scan([], true);
          assert scan.starts == done;
          return false;
        }
        SlotScanNext(line, j, bound, w, stop, done);
        ghost var next := SlotScan(line, j + w, bound, w, stop);
        StoreSlot(kind, line, j, patientId, referralId, outcome,
                  items0, n0, s0, done);
        done := done + [j];
        rest := next;
        j := j + w;
      }
      assert scan.starts == done && !scan.aborted;
      completed := true;
    }

    /** One column of the AdditionalData loop: the item named by the header,
        valued by the cell, stored at once. */
    method StoreExtra(header: seq<string>, line: seq<string>, c: nat, patientId: string, referralId: string,
                      ghost items0: map<ItemId, Item>, ghost n0: ItemId, ghost s0: seq<Stored>, ghost done: seq<nat>)
      requires ExtrasFit(header, line, done) && c < |header| && c < |line|
      requires StoredRun(items0, n0, s0, ExtraItems(header, line, done, Lookup(patients, Some(patientId)),
                                                    Lookup(referrals, PatRefId(Some(patientId), Some(referralId)))))
      modifies writer
      ensures ExtrasFit(header, line, done + [c])
      ensures StoredRun(items0, n0, s0, ExtraItems(header, line, done + [c], Lookup(patients, Some(patientId)),
                                                   Lookup(referrals, PatRefId(Some(patientId), Some(referralId)))))
    {
      ghost var p, r := Lookup(patients, Some(patientId)), Lookup(referrals, PatRefId(Some(patientId), Some(referralId)));
      var id := CreateAdditionalData(Some(patientId), Some(referralId), AdditionalDataClass,
                                     Some(header[c]), Some(line[c]));
      writer.Store(id);
      ExtraItemsSnoc(header, line, done, c, p, r);
      RecordsSnoc(n0, ExtraItems(header, line, done, p, r), writer.items[id]);
    }

    /** The AdditionalData loop of a Camden or Lewisham row: one item per
        column, named by the header, stored at once; a column past the end of
        the header or of the row throws. */
    method StoreExtras(header: seq<string>, line: seq<string>, cols: seq<nat>, patientId: string, referralId: string)
      returns (completed: bool)
      requires Valid()
      modifies writer
      ensures ExtrasFit(header, line, ColumnScan(header, line, cols, false).starts)
      ensures var scan := ColumnScan(header, line, cols, false);
              completed == !scan.aborted
              && StoredRun(old(writer.items), old(writer.nextId), old(writer.stored),
                           ExtraItems(header, line, scan.starts, Lookup(patients, Some(patientId)),
                                      Lookup(referrals, PatRefId(Some(patientId), Some(referralId)))))
    {
      ghost var p, r := Lookup(patients, Some(patientId)), Lookup(referrals, PatRefId(Some(patientId), Some(referralId)));
      ghost var scan := ColumnScan(header, line, cols, false);
      ghost var items0, n0, s0 := writer.items, writer.nextId, writer.stored;
      ghost var done: seq<nat> := [];
      ghost var rest := scan;
      assert StoredRun(items0, n0, s0, []);
      for i := 0 to |cols|
        invariant rest == ColumnScan(header, line, cols[i..], false)
        invariant scan == Scan(done + rest.starts, rest.aborted)
        invariant ExtrasFit(header, line, done)
        invariant StoredRun(items0, n0, s0, ExtraItems(header, line, done, p, r))
      {
        var c := cols[i];
        if c >= |header| || c >= |line| {
          assert rest == Scan([], true);
          assert scan.starts == done;
          return false;
        }
        ColumnScanNext(header, line, cols[i..], false, done);
        assert cols[i..][1..] == cols[i + 1..];
        StoreExtra(header, line, c, patientId, referralId, items0, n0, s0, done);
        done := done + [c];
        rest := ColumnScan(header, line, cols[i + 1..], false);
      }
      assert rest == Scan([], false);
      assert scan.starts == done && !scan.aborted;
      completed := true;
    }

    /** One score of the score loop: a Diagnostic named by the header, dated by
        the cell and valued by the next cell, stored at once. */
    method StoreScore(header: seq<string>, line: seq<string>, c: nat, patientId: string, referralId: string,
                      measure: Option<string>, measureType: Option<string>,
                      ghost items0: map<ItemId, Item>, ghost n0: ItemId, ghost s0: seq<Stored>, ghost done: seq<nat>)
      requires ScoresFit(header, line, done) && c < |header| && c + 1 < |line|
      requires StoredRun(items0, n0, s0, ScoreItems(header, line, done, measure, measureType,
                 Lookup(patients, Some(patientId)), Lookup(referrals, PatRefId(Some(patientId), Some(referralId)))))
      modifies writer
      ensures ScoresFit(header, line, done + [c])
      ensures StoredRun(items0, n0, s0, ScoreItems(header, line, done + [c], measure, measureType,
                Lookup(patients, Some(patientId)), Lookup(referrals, PatRefId(Some(patientId), Some(referralId)))))
    {
      ghost var p, r := Lookup(patients, Some(patientId)), Lookup(referrals, PatRefId(Some(patientId), Some(referralId)));
      var attrs := MeasuredDiagnosticAttrs(measure, measureType, Some(line[c]), Some(header[c]), Some(line[c + 1]));
      var id := CreateDiagnostic(Some(patientId), Some(referralId), attrs);
      writer.Store(id);
      ScoreItemsSnoc(header, line, done, c, measure, measureType, p, r);
      RecordsSnoc(n0, ScoreItems(header, line, done, measure, measureType, p, r), writer.items[id]);
    }

    /** The score loop of a Sunderland outcome row: an empty score cell is
        passed over; any other is stored as a score. */
    method StoreScores(header: seq<string>, line: seq<string>, patientId: string, referralId: string,
                       measure: Option<string>, measureType: Option<string>) returns (completed: bool)
      requires Valid()
      modifies writer
      ensures ScoresFit(header, line, ColumnScan(header, line, SunderlandScores, true).starts)
      ensures var scan := ColumnScan(header, line, SunderlandScores, true);
              completed == !scan.aborted
              && StoredRun(old(writer.items), old(writer.nextId), old(writer.stored),
                           ScoreItems(header, line, scan.starts, measure, measureType, Lookup(patients, Some(patientId)),
                                      Lookup(referrals, PatRefId(Some(patientId), Some(referralId)))))
    {
      ghost var p, r := Lookup(patients, Some(patientId)), Lookup(referrals, PatRefId(Some(patientId), Some(referralId)));
      var cols := SunderlandScores;
      ghost var scan := ColumnScan(header, line, cols, true);
      ghost var items0, n0, s0 := writer.items, writer.nextId, writer.stored;
      ghost var done: seq<nat> := [];
      ghost var rest := scan;
      assert StoredRun(items0, n0, s0, []);
      for i := 0 to |cols|
        invariant ScanSoFar(header, line, cols, i, done, rest, scan)
        invariant StoredRun(items0, n0, s0, ScoreItems(header, line, done, measure, measureType, p, r))
      {
        var c := cols[i];
        assert cols[i..][1..] == cols[i + 1..];
        if c >= |line| {
          assert rest == Scan([], true);
          assert scan.starts == done;
          return false;
        }
        if line[c] == "" {
          rest := ColumnScan(header, line, cols[i + 1..], true);
          continue;
        }
        if c >= |header| || c + 1 >= |line| {
          assert rest == Scan([], true);
          assert scan.starts == done;
          return false;
        }
        ColumnScanNext(header, line, cols[i..], true, done);
        StoreScore(header, line, c, patientId, referralId, measure, measureType, items0, n0, s0, done);
        done := done + [c];
        rest := ColumnScan(header, line, cols[i + 1..], true);
      }
      assert rest == Scan([], false);
      assert scan.starts == done && !scan.aborted;
      completed := true;
    }

    /** The current dataset is Bradford, ignoring case: `createReferral` then
        merges a row into an existing referral. */
    predicate MergesReferrals()
      reads this
    {
      dataSet.Some? && EqualsIgnoreCase(dataSet.value, "bradford")
    }

    /** What `createPatient` leaves for a row's patient id: the id cached as
        `p`, a new patient carrying the row's values when it was not cached. */
    ghost predicate PatientOpened(patients0: map<Option<string>, ItemId>, items: map<ItemId, Item>,
                                  patientId: string, ethnicity: Option<string>, gender: Option<string>, p: ItemId)
      reads this
    {
      patients == patients0[Some(patientId) := p] && p in items
      && (Some(patientId) in patients0 ==> p == patients0[Some(patientId)])
      && (Some(patientId) !in patients0 ==> items[p] == PatientItem(Some(patientId), ethnicity, gender, dataSet, dataSetRef))
    }

    /** What `createReferral` leaves for a row's ids: the referral cached as
        `r`, new with the row's values, or the cached one, merged into when
        the dataset is Bradford. */
    ghost predicate ReferralOpened(referrals0: map<string, ItemId>, items0: map<ItemId, Item>, items: map<ItemId, Item>,
                                   patientId: string, referralId: string, f: ReferralFields, r: ItemId)
      reads this
    {
      var key := PatRefId(Some(patientId), Some(referralId));
      referrals == referrals0[key := r] && r in items
      && (key !in referrals0 ==> items[r] == ReferralItem(Some(referralId), f, Lookup(patients, Some(patientId))))
      && (key in referrals0 ==> r == referrals0[key] && r in items0
                                && items[r] == if MergesReferrals() then BradfordMerge(items0[r], f) else items0[r])
    }

    /** `createPatient` for a row. */
    method OpenPatient(patientId: string, ethnicity: Option<string>, gender: Option<string>) returns (p: ItemId)
      requires Valid()
      modifies this`patients, writer
      ensures Valid() && Kept(old(writer.items), writer.items) && writer.stored == old(writer.stored)
      ensures PatientOpened(old(patients), writer.items, patientId, ethnicity, gender, p)
      ensures writer.nextId == old(writer.nextId) + if Some(patientId) in old(patients) then 0 else 1
    {
      p := CreatePatient(Some(patientId), ethnicity, gender, dataSet);
    }

    /** `createReferral` for a row, with a dataset set: only the row's
        referral is created or changed. */
    method OpenReferral(patientId: string, referralId: string, f: ReferralFields) returns (r: ItemId)
      requires Valid() && dataSet.Some?
      modifies this`referrals, writer
      ensures Valid() && writer.stored == old(writer.stored)
      ensures r in writer.items && writer.items == old(writer.items)[r := writer.items[r]]
      ensures AllEvolve(old(writer.items), writer.items)
      ensures ReferralOpened(old(referrals), old(writer.items), writer.items, patientId, referralId, f, r)
      ensures writer.nextId == old(writer.nextId)
                + if PatRefId(Some(patientId), Some(referralId)) in old(referrals) then 0 else 1
    {
      ghost var items0 := writer.items;
      var created := CreateReferral(Some(patientId), Some(referralId), f);
      r := created.value;
      if r in items0 {
        if MergesReferrals() {
          BradfordMergeEffect(items0[r], f);
        }
        assert Evolves(items0[r], writer.items[r]);
      }
      UpdateEvolves(items0, r, writer.items[r]);
    }

    /** Changing one item as a merge may change it, or adding a new one. */
    lemma UpdateEvolves(items0: map<ItemId, Item>, id: ItemId, item: Item)
      requires id in items0 ==> Evolves(items0[id], item)
      ensures AllEvolve(items0, items0[id := item])
    {
    }

    /** `createPatient` then `createReferral` for the ids of a row. */
    method OpenRow(patientId: string, ethnicity: Option<string>, gender: Option<string>, referralId: string,
                   f: ReferralFields) returns (p: ItemId, r: ItemId)
      requires Valid() && dataSet.Some?
      modifies this`patients, this`referrals, writer
      ensures Valid() && AllEvolve(old(writer.items), writer.items) && writer.stored == old(writer.stored)
      ensures PatientOpened(old(patients), writer.items, patientId, ethnicity, gender, p)
      ensures ReferralOpened(old(referrals), old(writer.items), writer.items, patientId, referralId, f, r)
    {
      ghost var items0 := writer.items;
      p := OpenPatient(patientId, ethnicity, gender);
      ghost var items1 := writer.items;
      r := OpenReferral(patientId, referralId, f);
      assert items1[p].className == "Patient" && writer.items[r].className == "Referral";
      EvolveThenKeep(items0, items0, items1);
    }

    /** The patient a row opened stays as it was while older items are kept. */
    lemma PatientKept(patients0: map<Option<string>, ItemId>, items1: map<ItemId, Item>, items2: map<ItemId, Item>,
                      patientId: string, ethnicity: Option<string>, gender: Option<string>, p: ItemId)
      requires PatientOpened(patients0, items1, patientId, ethnicity, gender, p) && Kept(items1, items2)
      ensures PatientOpened(patients0, items2, patientId, ethnicity, gender, p)
      ensures Extends(patients0, patients)
    {
    }

    /** The referral a row opened stays as it was while older items are kept. */
    lemma ReferralKept(referrals0: map<string, ItemId>, items0: map<ItemId, Item>, items1: map<ItemId, Item>,
                       items2: map<ItemId, Item>, patientId: string, referralId: string, f: ReferralFields, r: ItemId)
      requires ReferralOpened(referrals0, items0, items1, patientId, referralId, f, r) && Kept(items1, items2)
      ensures ReferralOpened(referrals0, items0, items2, patientId, referralId, f, r)
      ensures Extends(referrals0, referrals)
    {
    }

    /** Since `items0`, items were at most merged into and new ones added. */
    lemma EvolveThenKeep(items0: map<ItemId, Item>, items1: map<ItemId, Item>, items2: map<ItemId, Item>)
      requires AllEvolve(items0, items1) && Kept(items1, items2)
      ensures AllEvolve(items0, items2)
    {
    }

    /** The AdditionalData columns and contact slots of a Camden row. */
    method CamdenStores(header: seq<string>, line: seq<string>, patientId: string, referralId: string)
      returns (completed: bool)
      requires Valid() && |line| >= 24
      modifies writer
      ensures completed == !CamdenAborts(header, line)
      ensures StoredRun(old(writer.items), old(writer.nextId), old(writer.stored),
                        CamdenStored(header, line, Lookup(patients, Some(patientId)),
                                     Lookup(referrals, PatRefId(Some(patientId), Some(referralId)))))
    {
      ghost var p, r := Lookup(patients, Some(patientId)), Lookup(referrals, PatRefId(Some(patientId), Some(referralId)));
      ghost var items0, n0, s0 := writer.items, writer.nextId, writer.stored;
      completed := StoreExtras(header, line, CamdenExtras, patientId, referralId);
      ghost var extras := ExtraItems(header, line, ColumnScan(header, line, CamdenExtras, false).starts, p, r);
      ghost var items1, n1, s1 := writer.items, writer.nextId, writer.stored;
      assert Appended(items0, n0, s0, items1, n1, s1, extras);
      if completed {
        completed := StoreSlots(CamdenSlots, |header|, line, patientId, referralId, Some(line[8]));
        ghost var slots := SlotItems(CamdenSlots, line, SlotScan(line, 24, |header|, 4, false).starts, Some(line[8]), p, r);
        assert Appended(items1, n1, s1, writer.items, writer.nextId, writer.stored, slots);
        AppendedChain(items0, n0, s0, items1, n1, s1, writer.items, writer.nextId, writer.stored, extras, slots);
      }
    }

    /** What every row leaves, whatever its layout: the caches only grow,
        items are at most merged into, the row throws exactly when its layout
        says so, the carried referral values move on as the layout says, and
        what it stored is `added`, items of the layout's classes only. */
    twostate predicate RowDone(kind: RowKind, header: seq<string>, line: seq<string>, completed: bool,
                               added: seq<Stored>)
      reads this, writer
    {
      Valid() && AllEvolve(old(writer.items), writer.items)
      && Extends(old(patients), patients) && Extends(old(referrals), referrals)
      && completed == !LineAborts(kind, old(carried), header, line)
      && (completed ==> carried == CarriedAfter(kind, old(carried), line))
      && writer.stored == old(writer.stored) + added && StoredAre(added, StoredClasses(kind))
    }

    /** A Camden row that is used: its patient and referral, its
        AdditionalData columns and its contact slots. */
    method CamdenUse(header: seq<string>, line: seq<string>, f: ReferralFields)
      returns (completed: bool, ghost p: ItemId, ghost r: ItemId, ghost n1: ItemId)
      requires Valid() && dataSet.Some? && |line| >= 24
      modifies this`patients, this`referrals, writer
      ensures Valid() && AllEvolve(old(writer.items), writer.items)
      ensures Extends(old(patients), patients) && Extends(old(referrals), referrals)
      ensures completed == !CamdenAborts(header, line)
      ensures PatientOpened(old(patients), writer.items, line[1], Some(line[3]), Some(line[4]), p)
      ensures ReferralOpened(old(referrals), old(writer.items), writer.items, line[1], line[0], f, r)
      ensures writer.stored == old(writer.stored) + Records(n1, CamdenStored(header, line, Some(p), Some(r)))
    {
      ghost var items0, patients0, referrals0 := writer.items, patients, referrals;
      p, r := OpenRow(line[1], Some(line[3]), Some(line[4]), line[0], f);
      ghost var items1 := writer.items;
      n1 := writer.nextId;
      completed := CamdenStores(header, line, line[1], line[0]);
      PatientKept(patients0, items1, writer.items, line[1], Some(line[3]), Some(line[4]), p);
      ReferralKept(referrals0, items0, items1, writer.items, line[1], line[0], f, r);
      EvolveThenKeep(items0, items1, writer.items);
    }

    /** One row of a Camden file. */
    method CamdenLine(header: seq<string>, line: seq<string>) returns (completed: bool, ghost added: seq<Stored>)
      requires Valid() && dataSet.Some?
      modifies this`patients, this`referrals, writer
      ensures RowDone(CamdenRows, header, line, completed, added)
    {
      match CamdenRow(line)
      case Abort => return false, [];
      case Skip => return true, [];
      case Use(f) =>
        ghost var p: ItemId, r: ItemId, n1: ItemId;
        completed, p, r, n1 := CamdenUse(header, line, f);
        ghost var xs := CamdenStored(header, line, Some(p), Some(r));
        added := Records(n1, xs);
        CamdenStoredClasses(header, line, Some(p), Some(r));
        RecordsAre(n1, xs, StoredClasses(CamdenRows));
    }

    /** A Stoke on Trent row that is used: its patient and referral, then its
        contact slots. */
    method StokeUse(line: seq<string>, f: ReferralFields)
      returns (completed: bool, ghost p: ItemId, ghost r: ItemId, ghost n1: ItemId)
      requires Valid() && dataSet.Some? && |line| >= 17
      modifies this`patients, this`referrals, writer
      ensures Valid() && AllEvolve(old(writer.items), writer.items)
      ensures Extends(old(patients), patients) && Extends(old(referrals), referrals)
      ensures completed == !StokeAborts(line)
      ensures PatientOpened(old(patients), writer.items, line[0], Some(line[4]), Some(line[5]), p)
      ensures ReferralOpened(old(referrals), old(writer.items), writer.items, line[0], line[1], f, r)
      ensures writer.stored == old(writer.stored) + Records(n1, StokeStored(line, Some(p), Some(r)))
    {
      ghost var items0, patients0, referrals0 := writer.items, patients, referrals;
      p, r := OpenRow(line[0], Some(line[4]), Some(line[5]), line[1], f);
      ghost var items1 := writer.items;
      n1 := writer.nextId;
      completed := StoreSlots(StokeSlots, 317, line, line[0], line[1], None);
      PatientKept(patients0, items1, writer.items, line[0], Some(line[4]), Some(line[5]), p);
      ReferralKept(referrals0, items0, items1, writer.items, line[0], line[1], f, r);
      EvolveThenKeep(items0, items1, writer.items);
    }

    /** One row of a Stoke on Trent file. */
    method StokeLine(header: seq<string>, line: seq<string>) returns (completed: bool, ghost added: seq<Stored>)
      requires Valid() && dataSet.Some?
      modifies this`patients, this`referrals, writer
      ensures RowDone(StokeRows, header, line, completed, added)
    {
      match StokeRow(line)
      case Abort => return false, [];
      case Skip => return true, [];
      case Use(f) =>
        ghost var p: ItemId, r: ItemId, n1: ItemId;
        completed, p, r, n1 := StokeUse(line, f);
        ghost var xs := StokeStored(line, Some(p), Some(r));
        added := Records(n1, xs);
        StokeStoredClasses(line, Some(p), Some(r));
        RecordsAre(n1, xs, StoredClasses(StokeRows));
    }

    /** One row of a Bradford patient file: the row's age and locality join
        the carried referral values, then its patient and its referral. */
    method BradfordPatientLine(header: seq<string>, line: seq<string>)
      returns (completed: bool, ghost added: seq<Stored>, ghost p: ItemId, ghost r: ItemId)
      requires Valid() && dataSet.Some?
      modifies this`patients, this`referrals, this`carried, writer
      ensures RowDone(BradfordPatients, header, line, completed, added)
      ensures BradfordPatientRow(old(carried), line).Use? ==>
                PatientOpened(old(patients), writer.items, line[0], Some(line[4]), Some(line[2]), p)
                && ReferralOpened(old(referrals), old(writer.items), writer.items, line[0], line[1], carried, r)
    {
      match BradfordPatientRow(carried, line)
      case Abort => return false, [], 0, 0;
      case Skip => return true, [], 0, 0;
      case Use(f) =>
        carried := f;
        ghost var items0, patients0, referrals0 := writer.items, patients, referrals;
        p, r := OpenRow(line[0], Some(line[4]), Some(line[2]), line[1], f);
        PatientKept(patients0, writer.items, writer.items, line[0], Some(line[4]), Some(line[2]), p);
        ReferralKept(referrals0, items0, writer.items, writer.items, line[0], line[1], f, r);
        completed, added := true, [];
    }

    /** A Bradford contact row that is used: its referral is created or
        merged into, and its contact is stored. */
    method BradfordContactUse(line: seq<string>, f: ReferralFields) returns (ghost r: ItemId, ghost contact: Stored)
      requires Valid() && dataSet.Some? && |line| >= 15
      modifies this`referrals, writer
      ensures Valid() && AllEvolve(old(writer.items), writer.items) && Extends(old(referrals), referrals)
      ensures ReferralOpened(old(referrals), old(writer.items), writer.items, line[0], line[1],
                             BradfordContactReferral(f), r)
      ensures writer.stored == old(writer.stored) + [contact]
      ensures contact.item == ContactItem(BradfordContact(line), Lookup(patients, Some(line[0])), Some(r))
    {
      ghost var items0, referrals0 := writer.items, referrals;
      r := OpenReferral(line[0], line[1], BradfordContactReferral(f));
      ghost var items1 := writer.items;
      var id := StoreContact(Some(line[0]), Some(line[1]), BradfordContact(line));
      ReferralKept(referrals0, items0, items1, writer.items, line[0], line[1], BradfordContactReferral(f), r);
      EvolveThenKeep(items0, items1, writer.items);
      contact := Stored(id, writer.items[id]);
    }

    /** One row of a Bradford contact file: the row's referral values are
        carried on, then its referral and its contact. */
    method BradfordContactLine(header: seq<string>, line: seq<string>)
      returns (completed: bool, ghost added: seq<Stored>, ghost r: ItemId)
      requires Valid() && dataSet.Some?
      modifies this`referrals, this`carried, writer
      ensures RowDone(BradfordContacts, header, line, completed, added)
      ensures BradfordContactRow(old(carried), line).Use? ==>
                ReferralOpened(old(referrals), old(writer.items), writer.items, line[0], line[1],
                               BradfordContactReferral(carried), r)
                && |added| == 1
                && added[0].item == ContactItem(BradfordContact(line), Lookup(patients, Some(line[0])), Some(r))
    {
      match BradfordContactRow(carried, line)
      case Abort => return false, [], 0;
      case Skip => return true, [], 0;
      case Use(f) =>
        carried := f;
        ghost var contact: Stored;
        r, contact := BradfordContactUse(line, f);
        completed, added := true, [contact];
    }

    /** The AdditionalData columns and the contact of a Lewisham patient row. */
    method LewishamStores(header: seq<string>, line: seq<string>, patientId: string, referralId: string)
      returns (completed: bool)
      requires Valid() && |line| >= 23
      modifies writer
      ensures completed == !LewishamAborts(header, line)
      ensures StoredRun(old(writer.items), old(writer.nextId), old(writer.stored),
                        LewishamStored(header, line, Lookup(patients, Some(patientId)),
                                       Lookup(referrals, PatRefId(Some(patientId), Some(referralId)))))
    {
      ghost var p, r := Lookup(patients, Some(patientId)), Lookup(referrals, PatRefId(Some(patientId), Some(referralId)));
      ghost var items0, n0, s0 := writer.items, writer.nextId, writer.stored;
      completed := StoreExtras(header, line, LewishamExtras, patientId, referralId);
      if completed {
        ghost var extras := ExtraItems(header, line, ColumnScan(header, line, LewishamExtras, false).starts, p, r);
        StoreRowContact(patientId, referralId, LewishamContact(line), items0, n0, s0, extras);
      }
    }

    /** `storeContact` for a row's ids, after the row's other stores. */
    method StoreRowContact(patientId: string, referralId: string, f: ContactFields,
                           ghost items0: map<ItemId, Item>, ghost n0: ItemId, ghost s0: seq<Stored>, ghost xs: seq<Item>)
      requires StoredRun(items0, n0, s0, xs)
      modifies writer
      ensures StoredRun(items0, n0, s0, xs + [ContactItem(f, Lookup(patients, Some(patientId)),
                                                          Lookup(referrals, PatRefId(Some(patientId), Some(referralId))))])
    {
      var id := StoreContact(Some(patientId), Some(referralId), f);
      RecordsSnoc(n0, xs, writer.items[id]);
    }

    /** A Lewisham patient row that is used: its patient and referral, its
        AdditionalData columns and its contact. */
    method LewishamUse(header: seq<string>, line: seq<string>, f: ReferralFields)
      returns (completed: bool, ghost p: ItemId, ghost r: ItemId, ghost n1: ItemId)
      requires Valid() && dataSet.Some? && |line| >= 23
      modifies this`patients, this`referrals, writer
      ensures Valid() && AllEvolve(old(writer.items), writer.items)
      ensures Extends(old(patients), patients) && Extends(old(referrals), referrals)
      ensures completed == !LewishamAborts(header, line)
      ensures PatientOpened(old(patients), writer.items, line[0], Some(line[2]), Some(line[3]), p)
      ensures ReferralOpened(old(referrals), old(writer.items), writer.items, line[0], line[1], f, r)
      ensures writer.stored == old(writer.stored) + Records(n1, LewishamStored(header, line, Some(p), Some(r)))
    {
      ghost var items0, patients0, referrals0 := writer.items, patients, referrals;
      p, r := OpenRow(line[0], Some(line[2]), Some(line[3]), line[1], f);
      ghost var items1 := writer.items;
      n1 := writer.nextId;
      completed := LewishamStores(header, line, line[0], line[1]);
      PatientKept(patients0, items1, writer.items, line[0], Some(line[2]), Some(line[3]), p);
      ReferralKept(referrals0, items0, items1, writer.items, line[0], line[1], f, r);
      EvolveThenKeep(items0, items1, writer.items);
    }

    /** One row of a Lewisham patient file. */
    method LewishamPatientLine(header: seq<string>, line: seq<string>) returns (completed: bool, ghost added: seq<Stored>)
      requires Valid() && dataSet.Some?
      modifies this`patients, this`referrals, this`carried, writer
      ensures RowDone(LewishamPatients, header, line, completed, added)
    {
      match LewishamPatientRow(carried, line)
      case Abort => return false, [];
      case Skip => return true, [];
      case Use(f) =>
        carried := f;
        ghost var p: ItemId, r: ItemId, n1: ItemId;
        completed, p, r, n1 := LewishamUse(header, line, f);
        ghost var xs := LewishamStored(header, line, Some(p), Some(r));
        added := Records(n1, xs);
        LewishamStoredClasses(header, line, Some(p), Some(r));
        RecordsAre(n1, xs, StoredClasses(LewishamPatients));
    }

    /** A Lewisham outcome row that is used: `storeOutcome` for its ids. */
    method LewishamOutcomeUse(line: seq<string>, attrs: seq<(string, Option<string>)>) returns (ghost outcome: Stored)
      requires Valid() && |line| >= 2
      modifies this`patients, writer
      ensures Valid() && Kept(old(writer.items), writer.items) && Extends(old(patients), patients)
      ensures Some(line[0]) in patients && writer.stored == old(writer.stored) + [outcome]
      ensures outcome == Stored(old(writer.nextId), OutcomeItem(attrs, patients[Some(line[0])],
                                                               Lookup(referrals, PatRefId(Some(line[0]), Some(line[1])))))
    {
      var id := StoreOutcome(Some(line[0]), Some(line[1]), attrs);
      outcome := Stored(id, OutcomeItem(attrs, patients[Some(line[0])], Lookup(referrals, PatRefId(Some(line[0]), Some(line[1])))));
    }

    /** One row of a Lewisham outcome file: `storeOutcome` with the episode,
        rating date, rating type and score. */
    method LewishamOutcomeLine(header: seq<string>, line: seq<string>) returns (completed: bool, ghost added: seq<Stored>)
      requires Valid() && dataSet.Some?
      modifies this`patients, writer
      ensures RowDone(LewishamOutcomes, header, line, completed, added)
      ensures LewishamOutcomeRow(line).Use? ==>
                Some(line[0]) in patients
                && added == [Stored(old(writer.nextId), OutcomeItem(LewishamOutcomeRow(line).value, patients[Some(line[0])],
                                                                    Lookup(referrals, PatRefId(Some(line[0]), Some(line[1])))))]
    {
      match LewishamOutcomeRow(line)
      case Abort => return false, [];
      case Skip => return true, [];
      case Use(attrs) =>
        ghost var items0 := writer.items;
        ghost var outcome := LewishamOutcomeUse(line, attrs);
        EvolveThenKeep(items0, items0, writer.items);
        completed, added := true, [outcome];
    }

    /** One row of a Sunderland data file: the row's referral values are
        carried on, then its patient and its referral. */
    method SunderlandDataLine(header: seq<string>, line: seq<string>)
      returns (completed: bool, ghost added: seq<Stored>, ghost p: ItemId, ghost r: ItemId)
      requires Valid() && dataSet.Some?
      modifies this`patients, this`referrals, this`carried, writer
      ensures RowDone(SunderlandData, header, line, completed, added)
      ensures SunderlandDataRow(old(carried), line).Use? ==>
                PatientOpened(old(patients), writer.items, line[0], Some(line[4]), Some(line[5]), p)
                && ReferralOpened(old(referrals), old(writer.items), writer.items, line[0], line[1], carried, r)
    {
      match SunderlandDataRow(carried, line)
      case Abort => return false, [], 0, 0;
      case Skip => return true, [], 0, 0;
      case Use(f) =>
        carried := f;
        ghost var items0, patients0, referrals0 := writer.items, patients, referrals;
        p, r := OpenRow(line[0], Some(line[4]), Some(line[5]), line[1], f);
        PatientKept(patients0, writer.items, writer.items, line[0], Some(line[4]), Some(line[5]), p);
        ReferralKept(referrals0, items0, writer.items, writer.items, line[0], line[1], f, r);
        completed, added := true, [];
    }

    /** One row of a Sunderland outcome file: one Diagnostic per score given,
        linked to whichever of the patient and referral are cached. */
    method SunderlandOutcomeLine(header: seq<string>, line: seq<string>) returns (completed: bool, ghost added: seq<Stored>)
      requires Valid() && dataSet.Some?
      modifies writer
      ensures RowDone(SunderlandOutcomes, header, line, completed, added)
      ensures SunderlandOutcomeRow(line).Use? ==>
                added == Records(old(writer.nextId), SunderlandStored(header, line, Some(line[4]), Some(line[5]),
                                   Lookup(patients, Some(line[0])), Lookup(referrals, PatRefId(Some(line[0]), Some(line[1])))))
    {
      match SunderlandOutcomeRow(line)
      case Abort => return false, [];
      case Skip => return true, [];
      case Use(measures) =>
        ghost var items0, n0 := writer.items, writer.nextId;
        ghost var p, r := Lookup(patients, Some(line[0])), Lookup(referrals, PatRefId(Some(line[0]), Some(line[1])));
        completed := StoreScores(header, line, line[0], line[1], measures.0, measures.1);
        ghost var xs := SunderlandStored(header, line, measures.0, measures.1, p, r);
        added := Records(n0, xs);
        EvolveThenKeep(items0, items0, writer.items);
        SunderlandStoredClasses(header, line, measures.0, measures.1, p, r);
        RecordsAre(n0, xs, StoredClasses(SunderlandOutcomes));
    }

    /** One row of a site file, by the file's row layout. */
    method RowStep(kind: RowKind, header: seq<string>, line: seq<string>)
      returns (completed: bool, ghost added: seq<Stored>)
      requires Valid() && dataSet.Some?
      modifies this`patients, this`referrals, this`carried, writer
      ensures RowDone(kind, header, line, completed, added)
    {
      ghost var p: ItemId, r: ItemId;
      match kind
      case CamdenRows => completed, added := CamdenLine(header, line);
      case StokeRows => completed, added := StokeLine(header, line);
      case BradfordPatients => completed, added, p, r := BradfordPatientLine(header, line);
      case BradfordContacts => completed, added, r := BradfordContactLine(header, line);
      case LewishamPatients => completed, added := LewishamPatientLine(header, line);
      case LewishamOutcomes => completed, added := LewishamOutcomeLine(header, line);
      case SunderlandData => completed, added, p, r := SunderlandDataLine(header, line);
      case SunderlandOutcomes => completed, added := SunderlandOutcomeLine(header, line);
    }

    /** The row loop of a site file: every row in order until one throws.
        The caches only grow, items are at most merged into, the file throws
        exactly when one of its rows does, and the rows store only items of
        the layout's classes, never a patient or a referral. */
    method ProcessRows(kind: RowKind, header: seq<string>, rows: seq<seq<string>>)
      returns (completed: bool, ghost added: seq<Stored>)
      requires Valid() && dataSet.Some?
      modifies this`patients, this`referrals, this`carried, writer
      ensures Valid() && AllEvolve(old(writer.items), writer.items)
      ensures Extends(old(patients), patients) && Extends(old(referrals), referrals)
      ensures completed == !RowsAbort(kind, old(carried), header, rows)
      ensures completed ==> carried == CarriedAfterRows(kind, old(carried), rows)
      ensures writer.stored == old(writer.stored) + added && StoredAre(added, StoredClasses(kind))
    {
      added := [];
      for i := 0 to |rows|
        invariant Valid() && AllEvolve(old(writer.items), writer.items)
        invariant Extends(old(patients), patients) && Extends(old(referrals), referrals)
        invariant RowsAbort(kind, old(carried), header, rows) == RowsAbort(kind, carried, header, rows[i..])
        invariant CarriedAfterRows(kind, old(carried), rows) == CarriedAfterRows(kind, carried, rows[i..])
        invariant writer.stored == old(writer.stored) + added && StoredAre(added, StoredClasses(kind))
      {
        ghost var items0, patients0, referrals0, carried0 := writer.items, patients, referrals, carried;
        RowsFrom(kind, carried, header, rows, i);
        var ok, more := RowStep(kind, header, rows[i]);
        EvolvesTrans(old(writer.items), items0, writer.items);
        ExtendsTrans(old(patients), patients0, patients);
        ExtendsTrans(old(referrals), referrals0, referrals);
        StoredAreAppend(added, more, StoredClasses(kind));
        added := added + more;
        if !ok {
          return false, added;
        }
      }
      completed := true;
    }

    /** A site pipeline on one file: the header row, the row loop, and, when
        no row threw and the file name asks for it, the patients and the
        referrals flushed once each. An empty file throws at its header. */
    method ProcessSite(p: Pipeline, fileName: string, file: seq<seq<string>>)
      returns (completed: bool, ghost added: seq<Stored>,
               ghost patientOrder: seq<Option<string>>, ghost referralOrder: seq<string>)
      requires Valid() && dataSet.Some? && RowPipeline(p)
      modifies this`patients, this`referrals, this`carried, writer
      ensures Valid() && AllEvolve(old(writer.items), writer.items)
      ensures Extends(old(patients), patients) && Extends(old(referrals), referrals)
      ensures var (kind, flush) := FileLayout(p, fileName);
              && completed == (file != [] && !RowsAbort(kind, old(carried), file[0], file[1..]))
              && (completed ==> carried == CarriedAfterRows(kind, old(carried), file[1..]))
              && StoredAre(added, StoredClasses(kind))
              && if completed && flush then
                   Enumerates(patientOrder, patients.Keys) && Enumerates(referralOrder, referrals.Keys)
                   && writer.stored == old(writer.stored) + added + Flushed(writer.items, patients, patientOrder)
                                       + Flushed(writer.items, referrals, referralOrder)
                 else writer.stored == old(writer.stored) + added
    {
      var (kind, flush) := FileLayout(p, fileName);
      patientOrder, referralOrder := [], [];
      if file == [] {
        return false, [], [], [];
      }
      completed, added := ProcessRows(kind, file[0], file[1..]);
      if completed && flush {
        patientOrder := StorePatients();
        referralOrder := StoreReferrals();
      }
    }

    ghost predicate ContactsFrom(contacts0: map<string, ItemId>, items0: map<ItemId, Item>,
                                 calls: seq<ContactLocals>)
      reads this, writer
    {
      ContactsAfter(contacts0, items0, contacts, writer.items, patients, referrals, ref2pat, calls)
    }

    /** `processContact`: a contact file whose columns depend on the current
        dataset. Each row that reaches `createContact` with a cached patient
        caches its contact; nothing is stored before the end of the file,
        where, if no row threw, every cached contact is flushed once. */
    method ProcessContact(file: seq<seq<string>>)
      returns (completed: bool, ghost calls: seq<ContactLocals>, ghost order: seq<string>)
      requires Valid()
      modifies this`contacts, writer
      ensures Valid()
      ensures var run := ContactFileRun(ContactLayoutOf(dataSet), file, patients.Keys);
              completed == !run.aborted && calls == run.calls
      ensures ContactsFrom(old(contacts), old(writer.items), calls)
      ensures if completed then
                Enumerates(order, contacts.Keys)
                && writer.stored == old(writer.stored) + Flushed(writer.items, contacts, order)
              else writer.stored == old(writer.stored)
    {
      order := [];
      if file == [] {
        return false, [], order;
      }
      assert ContactCalls(ContactLayoutOf(dataSet), NoContactLocals, file[1..], patients.Keys)
             == ContactFileRun(ContactLayoutOf(dataSet), file, patients.Keys);
      completed, calls := ContactRows(file[1..]);
      if completed {
        order := StoreContacts();
      } else {
        assert writer.stored == old(writer.stored);
      }
    }

    /** The row loop of `processContact`, up to the first row that throws. */
    method ContactRows(rows: seq<seq<string>>) returns (completed: bool, ghost calls: seq<ContactLocals>)
      requires Valid()
      modifies this`contacts, writer
      ensures Valid() && writer.stored == old(writer.stored)
      ensures var run := ContactCalls(ContactLayoutOf(dataSet), NoContactLocals, rows, patients.Keys);
              completed == !run.aborted && calls == run.calls
      ensures ContactsFrom(old(contacts), old(writer.items), calls)
    {
      var layout := ContactLayoutOf(dataSet);
      ghost var known := patients.Keys;
      ghost var total := ContactCalls(layout, NoContactLocals, rows, known);
      var l := NoContactLocals;
      ghost var done: seq<ContactLocals> := [];
      assert rows[0..] == rows;
      for i := 0 to |rows|
        invariant Valid() && writer.stored == old(writer.stored) && known == patients.Keys
        invariant var rest := ContactCalls(layout, l, rows[i..], known);
                  total == ContactRun(done + rest.calls, rest.aborted)
        invariant ContactsFrom(old(contacts), old(writer.items), done)
      {
        ContactRunAdvance(layout, l, rows, i, known, done, total);
        if layout.None? {
          return false, done;
        }
        var ok, l2;
        ghost var more;
        ok, l2, more := ContactRow(layout.value, l, rows[i], old(contacts), old(writer.items), done);
        if !ok {
          return false, done;
        }
        done := done + more;
        l := l2;
      }
      ContactRunAdvance(layout, l, rows, |rows|, known, done, total);
      calls := done;
      completed := true;
    }

    /** One row of a contact file: the locals it leaves and the
        `createContact` call it makes, if it does not throw. */
    method ContactRow(layout: ContactLayout, l: ContactLocals, line: seq<string>, ghost contacts0: map<string, ItemId>,
                      ghost items0: map<ItemId, Item>, ghost done: seq<ContactLocals>)
      returns (ok: bool, l2: ContactLocals, ghost more: seq<ContactLocals>)
      requires Valid() && ContactsFrom(contacts0, items0, done)
      modifies this`contacts, writer
      ensures Valid() && writer.stored == old(writer.stored)
      ensures ok == !ContactStep(layout, l, line).Abort?
      ensures l2 == LocalsAfter(layout, l, line) && more == RowCalls(layout, l, line, patients.Keys)
      ensures ContactsFrom(contacts0, items0, done + more)
    {
      var step := ContactStep(layout, l, line);
      l2 := LocalsAfter(layout, l, line);
      more := [];
      if step.Abort? {
        assert done + more == done;
        return false, l2, more;
      }
      ok := true;
      if step.Use? && step.value.patientId in patients {
        var c := step.value;
        ContactCall(c, contacts0, items0, done);
        more := [c];
      } else {
        assert done + more == done;
      }
    }

    /** One `createContact` call of a contact file. */
    method ContactCall(c: ContactLocals, ghost contacts0: map<string, ItemId>, ghost items0: map<ItemId, Item>,
                       ghost done: seq<ContactLocals>)
      requires Valid() && ContactsFrom(contacts0, items0, done)
      modifies this`contacts, writer
      ensures Valid() && writer.stored == old(writer.stored)
      ensures ContactsFrom(contacts0, items0, done + [c])
    {
      ghost var contacts1, items1 := contacts, writer.items;
      var id := CreateContact(c.patientId, c.referralId, c.fields);
      ContactsAfterSnoc(contacts0, items0, contacts1, items1, contacts, writer.items,
                        patients, referrals, ref2pat, done, c, id);
    }
  }
}
