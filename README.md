# iThrive source converters, modelled in Dafny

This project models the two InterMine data converters of the iThrive
sources that reconcile NHS mental-health service files into one item graph.

- **POR converter.** Reads one CSV file per call. It picks the site and its
  dataset from the file name, then runs the row pipeline for that site.
- **NHS converter.** Reads the three Cambridge files: demographics,
  contacts and diagnoses.

Both converters keep caches of Patient, Referral and Contact items, keyed by
identifiers taken from the rows. A row either creates a cached item or
reuses it, and on Bradford files it merges into the cached referral. The
caches are flushed to the item store when a reader completes, but not by
every reader: the NHS contact reader flushes nothing, the NHS demographics
reader flushes only patients, the NHS diagnosis reader flushes referrals
and then contacts, the POR Bradford, Lewisham and Sunderland
loops flush only after their second file, and the POR Camden and Stoke on
Trent loops at the end of each file.

How the model is organised:

- `Items`: an InterMine item as a value. It has a class name, string
  attributes and references to other items' ids. `SetAll` models a run of
  `setAttributeIfNotNull` calls.
- `ItemStore.Writer`: the item writer as a class. It hands out ids, keeps
  the items it has created, and appends each `store` to a `stored` log.
- `JavaText`: the Java `String` operations the converters use
  (`contains`, `replace`, `indexOf`, `toLowerCase`, `equalsIgnoreCase`).
- `Cleaners`, `SiteRegistry`, `PorItems`, `PorRows`, `PorLines`: the pure
  parts of the POR converter. These are the cell cleaners, the file-name
  registry of `setDataset`, the items built from setter arguments, and what
  one row means (skipped, used, or throwing).
- `Por.PorConverter` and `Nhs.NhsConverter`: the converters as classes. Their
  cache maps are fields. Each Java method that updates them is a `method`
  whose `ensures` states the new caches and the writer's new state, in terms
  of the value functions.
- `NhsRows`: the value view of the three NHS files.

A Java `NullPointerException` or `ArrayIndexOutOfBoundsException` aborts a
file. The model represents it as a `completed == false` result after which
nothing more happens. A `null` string is `None` of an `Option<string>`.

The NHS `process` runs at most one reader per file, not exactly one. A file
that ends in `csv` but matches none of the three names only gets the
dataset. Matching the names ignores case; the `csv` test does not
(`NhsRows.ExtensionIsCaseSensitive`).

## Model

| member | source | states |
|---|---|---|
| Cleaners.CleanIdentifier | por/src/main/java/org/intermine/bio/dataconversion/PorConverter.java:1851-1888 | null exactly when the cell contains `NULL`; never longer than the cell; a cell that no rule matches comes back unchanged |
| Cleaners.ReplaceShortens | por/src/main/java/org/intermine/bio/dataconversion/PorConverter.java:1869-1882 | deleting every occurrence of a token never makes an identifier longer |
| Cleaners.CleanIdentifierDropsPrefix | por/src/main/java/org/intermine/bio/dataconversion/PorConverter.java:1868-1870 | an id made of `RT` and a rest without `RT` becomes that rest |
| Cleaners.CleanIdentifierDropsSuffix | por/src/main/java/org/intermine/bio/dataconversion/PorConverter.java:1871-1882 | an id ending in `DA`, `CA`, `GA` or `RiO`, that no earlier rule catches and that holds the token only at its end, loses the token |
| Cleaners.CleanIdentifierCutsAtFirstM | por/src/main/java/org/intermine/bio/dataconversion/PorConverter.java:1883-1885 | an id that no earlier rule catches and that holds `MH` after an `M`-free start becomes that start, whatever follows |
| Cleaners.CleanIdentifierCut | por/src/main/java/org/intermine/bio/dataconversion/PorConverter.java:1883-1885 | an id that no earlier rule catches and that holds `MH` becomes the part before its first `M` |
| Cleaners.ExampleSitePrefix | por/src/main/java/org/intermine/bio/dataconversion/PorConverter.java:1851-1870 | `RT2550527` becomes `2550527` |
| Cleaners.ExampleDaSuffix | por/src/main/java/org/intermine/bio/dataconversion/PorConverter.java:1871-1873 | `1150471DA` becomes `1150471` |
| Cleaners.ExampleRioSuffix | por/src/main/java/org/intermine/bio/dataconversion/PorConverter.java:1874-1882 | `1022464RiO` becomes `1022464` |
| Cleaners.ExampleMentalHealthRef | por/src/main/java/org/intermine/bio/dataconversion/PorConverter.java:1883-1885 | `1022464MHRef1` becomes `1022464`, dropping the digit after `Ref` |
| Cleaners.ExampleUnderscoresKept | por/src/main/java/org/intermine/bio/dataconversion/PorConverter.java:1851-1887 | `5_C_2480976` is kept whole: there is no separator rule |
| Cleaners.ExampleFirstRuleOnly | por/src/main/java/org/intermine/bio/dataconversion/PorConverter.java:1868-1873 | `RT1150471DA` becomes `1150471DA`: once a prefix rule fires, the suffix rules are skipped (`else if` chain) |
| Cleaners.ExampleEveryOccurrence | por/src/main/java/org/intermine/bio/dataconversion/PorConverter.java:1871-1873 | `replace` deletes every occurrence, not only the trailing one: `12DA34DA` becomes `1234` |
| Cleaners.CleanDate | por/src/main/java/org/intermine/bio/dataconversion/PorConverter.java:1890-1899 | a cell of spaces only throws; a cell with no space is null when it contains `NULL` and otherwise kept; a cell with a space gives the part before its first space |
| Cleaners.ExampleDateTime | por/src/main/java/org/intermine/bio/dataconversion/PorConverter.java:1893-1896 | a date followed by a time keeps the date |
| Cleaners.ExampleNullWithTime | por/src/main/java/org/intermine/bio/dataconversion/PorConverter.java:1893-1897 | `NULL 15:00` gives the string `NULL`, not null: the `NULL` test is skipped when there is a space |
| Cleaners.ExampleBlankDateThrows | por/src/main/java/org/intermine/bio/dataconversion/PorConverter.java:1893-1896 | a cell of two spaces throws |
| Cleaners.CleanValue | por/src/main/java/org/intermine/bio/dataconversion/PorConverter.java:1901-1908 | null exactly when the cell contains `NULL`; otherwise the cell itself or one of the two canonical contact values |
| Cleaners.ExampleFaceToFace | por/src/main/java/org/intermine/bio/dataconversion/PorConverter.java:1904-1907 | `f2F` becomes `F2F` and `NF2F` becomes `NonF2F`, ignoring case; `Telephone` is kept |
| Cleaners.CleanValueIdempotent | por/src/main/java/org/intermine/bio/dataconversion/PorConverter.java:1901-1908 | cleaning a cleaned value changes nothing |
| Cleaners.RoundAge | por/src/main/java/org/intermine/bio/dataconversion/PorConverter.java:1910-1918 | the age is the part of cell 2 before its first `.`, and contains no `.` |
| Cleaners.GetSite | por/src/main/java/org/intermine/bio/dataconversion/PorConverter.java:1920-1929 | the result is the site cell itself or one of the four merged site names |
| Cleaners.GetSiteIdempotent | por/src/main/java/org/intermine/bio/dataconversion/PorConverter.java:1920-1929 | resolving a resolved site changes nothing |
| Cleaners.ExampleIdPrefixWins | por/src/main/java/org/intermine/bio/dataconversion/PorConverter.java:1921-1923 | the identifier prefix is tested before the site name: `LTSuffolk` resolves to Luton |
| Cleaners.ExampleTownIsNorfolk | por/src/main/java/org/intermine/bio/dataconversion/PorConverter.java:1923-1926 | `Great Yarmouth` resolves to Norfolk |
| SiteRegistry.ResolveStep | por/src/main/java/org/intermine/bio/dataconversion/PorConverter.java:1931-2004 | one registry entry whose fragment the file name contains sets dataset and site type; otherwise both stay |
| SiteRegistry.ResolveLastMatch | por/src/main/java/org/intermine/bio/dataconversion/PorConverter.java:1931-2004 | the last entry whose fragment the name contains decides the dataset and site type |
| SiteRegistry.ResolveNoMatch | por/src/main/java/org/intermine/bio/dataconversion/PorConverter.java:1931-2004 | a name containing no fragment keeps the previous dataset and site type |
| SiteRegistry.ResolveFound | por/src/main/java/org/intermine/bio/dataconversion/PorConverter.java:1931-2004 | a name containing some fragment gets a registry dataset |
| SiteRegistry.ResolveSiteType | por/src/main/java/org/intermine/bio/dataconversion/PorConverter.java:1931-2004 | the site type after the chain is the previous one, or `control` or `accelerator` |
| SiteRegistry.ExampleLaterFragmentWins | por/src/main/java/org/intermine/bio/dataconversion/PorConverter.java:1981-1988 | `StockportStoke.csv` is Stoke on Trent, a control site: the later `if` overrides Stockport |
| Items.SetAll | por/src/main/java/org/intermine/bio/dataconversion/PorConverter.java:1577-1591 | a run of `setAttributeIfNotNull` keeps every old key and adds exactly the names with a non-null value |
| Items.SetAllHit | por/src/main/java/org/intermine/bio/dataconversion/PorConverter.java:1577-1591 | a name set to a non-null value and not set later has that value |
| Items.SetAllMiss | por/src/main/java/org/intermine/bio/dataconversion/PorConverter.java:1577-1591 | a name not in the run keeps its old value, or stays absent |
| Items.LastWrite | por/src/main/java/org/intermine/bio/dataconversion/PorConverter.java:1598-1612 | when a name is set more than once, the last non-null value wins |
| Items.SetAllIdempotent | por/src/main/java/org/intermine/bio/dataconversion/PorConverter.java:1598-1612 | applying the same run twice is applying it once |
| Items.RefillLastWins | nhs/src/main/java/org/intermine/bio/dataconversion/NhsConverter.java:252-263 | after several in-place fills of one item, each attribute holds the value of the last fill that set it |
| Items.RefillMiss | nhs/src/main/java/org/intermine/bio/dataconversion/NhsConverter.java:252-263 | an attribute no fill sets keeps its value |
| Items.LinkRefs | por/src/main/java/org/intermine/bio/dataconversion/PorConverter.java:1642-1647 | the item refers to a patient exactly when one is cached, and to a referral exactly when one is cached |
| Items.PatRefIdSplits | por/src/main/java/org/intermine/bio/dataconversion/PorConverter.java:1574 | for patient ids without a dash, equal keys mean equal patient ids and equal referral ids, as printed |
| Items.PatRefIdCollisions | por/src/main/java/org/intermine/bio/dataconversion/PorConverter.java:1574 | two different id pairs can share a key (`1-2`,`3` and `1`,`2-3`; a null id and the string `null`) |
| JavaText.IndexOf | por/src/main/java/org/intermine/bio/dataconversion/PorConverter.java:1884 | `indexOf` gives the first position of the character, or -1 when it is absent |
| JavaText.IndexOfFirst | por/src/main/java/org/intermine/bio/dataconversion/PorConverter.java:1884 | a position holding the character with none before it is what `indexOf` returns |
| JavaText.ToLower | por/src/main/java/org/intermine/bio/dataconversion/PorConverter.java:1923 | `toLowerCase` keeps the length and lowers each ASCII capital |
| JavaText.ReplaceAbsent | por/src/main/java/org/intermine/bio/dataconversion/PorConverter.java:1869-1882 | `replace` of a token the string does not contain returns the string |
| JavaText.ReplaceAfter | por/src/main/java/org/intermine/bio/dataconversion/PorConverter.java:1871-1882 | for a token that cannot overlap itself, `replace` on `d + t + e` with `d` free of `t` rewrites that occurrence and goes on in `e` |
| ItemStore.FirstOfKeys | por/src/main/java/org/intermine/bio/dataconversion/PorConverter.java:1553-1566 | the keys a run of create calls leaves cached are exactly the keys asked for |
| ItemStore.FirstOfFirst | por/src/main/java/org/intermine/bio/dataconversion/PorConverter.java:1553-1566 | each key is bound to the item its first call asked for |
| ItemStore.FirstWinsStep | por/src/main/java/org/intermine/bio/dataconversion/PorConverter.java:1553-1566 | a get-or-create call keeps the first-call-wins relation between the cache and the calls so far |
| ItemStore.Flushed | por/src/main/java/org/intermine/bio/dataconversion/PorConverter.java:1827-1844 | a flush stores, one by one, the cached item of each key in the enumeration |
| ItemStore.Writer.Create | por/src/main/java/org/intermine/bio/dataconversion/PorConverter.java:1557-1563 | `createItem` plus setters: the next id, now bound to the item; nothing is stored |
| ItemStore.Writer.Reserve | por/src/main/java/org/intermine/bio/dataconversion/PorConverter.java:1694 | an item created before its values are known takes the next id |
| ItemStore.Writer.Update | nhs/src/main/java/org/intermine/bio/dataconversion/NhsConverter.java:254-263 | a setter on a live item changes that item only |
| ItemStore.Writer.Store | por/src/main/java/org/intermine/bio/dataconversion/PorConverter.java:1682 | `store` appends exactly one record, of the item as it is now |
| ItemStore.Writer.StoreAll | por/src/main/java/org/intermine/bio/dataconversion/PorConverter.java:1827-1844 | every value of a cache is stored once, in some order of its keys, and nothing else |
| PorItems.BradfordMergeEffect | por/src/main/java/org/intermine/bio/dataconversion/PorConverter.java:1598-1612 | the Bradford merge writes each non-null merged field, keeps the age, locality, identifier and every other attribute, and keeps class and links |
| PorItems.BradfordMergeIdempotent | por/src/main/java/org/intermine/bio/dataconversion/PorConverter.java:1598-1612 | merging the same row twice is merging it once |
| PorRows.SlotScanStarts | por/src/main/java/org/intermine/bio/dataconversion/PorConverter.java:1310-1320 | the slots visited are consecutive and complete, lie inside the bound, and each starts with a non-empty cell (without `NULL` on Stoke on Trent files) |
| PorRows.SlotScanEnd | por/src/main/java/org/intermine/bio/dataconversion/PorConverter.java:1310-1320 | the scan stops at the first empty slot (or `NULL` one on Stoke files), at the bound, or throws on a short row |
| PorRows.StokeSlotsAtMostFifty | por/src/main/java/org/intermine/bio/dataconversion/PorConverter.java:1394 | a Stoke on Trent row yields at most fifty contacts |
| PorRows.ColumnScanAll | por/src/main/java/org/intermine/bio/dataconversion/PorConverter.java:1303-1306 | without the score rule, a scan that does not throw visits every listed column in order, and it throws exactly when a column lies past the header or the row |
| PorRows.ColumnScanScores | por/src/main/java/org/intermine/bio/dataconversion/PorConverter.java:1127-1135 | the score loop passes over empty score cells and stores every other one |
| PorRows.BradfordContactKeepsCarriedAge | por/src/main/java/org/intermine/bio/dataconversion/PorConverter.java:925-950 | a Bradford contact row reuses the age and locality left over from the last patient row |
| PorRows.LewishamRowLengths | por/src/main/java/org/intermine/bio/dataconversion/PorConverter.java:994-1016 | rows under 17 cells are skipped, but the `< 17` guard lets rows of 17 to 22 cells through and they throw on the cells up to index 22; longer rows are used when their dates clean |
| PorRows.SunderlandKeepsFirstTreatment | por/src/main/java/org/intermine/bio/dataconversion/PorConverter.java:1092-1114 | a Sunderland data row never sets the first-treatment date, so the value carried from earlier rows stays; its age is null exactly when cell 2 contains `NULL` |
| PorRows.WorcesterCreatesNoContact | por/src/main/java/org/intermine/bio/dataconversion/PorConverter.java:363-408 | a Worcester contact file whose starting patient id is not cached creates no contact, because Worcester rows never set the patient id |
| PorRows.GenericCallsAreWholeRows | por/src/main/java/org/intermine/bio/dataconversion/PorConverter.java:387-400 | on the generic layout, every row that is used makes exactly one `createContact` call with the row's cells |
| PorRows.SharedRunExactly | por/src/main/java/org/intermine/bio/dataconversion/PorConverter.java:139-158 | a file matching no exclusive site runs, in order, exactly the shared pipelines whose fragment it contains |
| PorRows.FirstExclusiveFound | por/src/main/java/org/intermine/bio/dataconversion/PorConverter.java:127-138 | the first exclusive site fragment the name contains selects its pipeline alone |
| PorRows.PipelinesSelection | por/src/main/java/org/intermine/bio/dataconversion/PorConverter.java:120-159 | a `csv` name runs only the first exclusive site it names, or else the shared pipelines it names |
| PorRows.UpperCaseCsvIgnored | por/src/main/java/org/intermine/bio/dataconversion/PorConverter.java:120 | `CAMPET.CSV` runs nothing: the extension test is case-sensitive |
| PorLines.CamdenStoredClasses | por/src/main/java/org/intermine/bio/dataconversion/PorConverter.java:1303-1320 | a Camden row stores AdditionalData and Contact items only |
| PorLines.StokeStoredClasses | por/src/main/java/org/intermine/bio/dataconversion/PorConverter.java:1394-1407 | a Stoke on Trent row stores Contact items only |
| PorLines.LewishamStoredClasses | por/src/main/java/org/intermine/bio/dataconversion/PorConverter.java:1025-1030 | a Lewisham patient row stores AdditionalData and Contact items only |
| PorLines.SunderlandStoredClasses | por/src/main/java/org/intermine/bio/dataconversion/PorConverter.java:1127-1135 | a Sunderland outcome row stores Diagnostic items only |
| Por.FirstCall | por/src/main/java/org/intermine/bio/dataconversion/PorConverter.java:1628-1649 | the first call with a key is a call with that key, and there is none exactly when no call has the key |
| Por.FirstCallSnoc | por/src/main/java/org/intermine/bio/dataconversion/PorConverter.java:1628-1649 | a later call with a cached key does not change which call was first |
| Por.ContactsAfterSnoc | por/src/main/java/org/intermine/bio/dataconversion/PorConverter.java:1617-1651 | after one more `createContact`, the contact cache is the first-call-wins cache of all calls so far |
| Por.SiteFileHasDataset | por/src/main/java/org/intermine/bio/dataconversion/PorConverter.java:120-159 | every site a file selects is registered with a dataset |
| Por.SiteFileNamesSite | por/src/main/java/org/intermine/bio/dataconversion/PorConverter.java:127-158 | a file that selects a site pipeline names one of that site's registry fragments |
| Por.PorConverter.constructor | por/src/main/java/org/intermine/bio/dataconversion/PorConverter.java:102-105 | empty caches, no current dataset |
| Por.PorConverter.CreateDataSet | por/src/main/java/org/intermine/bio/dataconversion/PorConverter.java:1810-1825 | a site seen before changes nothing; a new one gets a DataSource and a DataSet, stored, and becomes the patients' dataset |
| Por.PorConverter.StoreDataSet | por/src/main/java/org/intermine/bio/dataconversion/PorConverter.java:1814-1822 | the DataSource and the DataSet linked to it take the next two ids and are stored in that order |
| Por.PorConverter.SetDataset | por/src/main/java/org/intermine/bio/dataconversion/PorConverter.java:1931-2007 | the dataset and site type are those the registry gives for the name, and the dataset is registered |
| Por.PorConverter.PickSite | por/src/main/java/org/intermine/bio/dataconversion/PorConverter.java:1932-2004 | the `if` chain leaves the registry's resolution of the name |
| Por.PorConverter.CreatePatient | por/src/main/java/org/intermine/bio/dataconversion/PorConverter.java:1553-1566 | the id is cached afterwards; an uncached id gets a new Patient with the row's values and the current dataset; nothing is stored |
| Por.PorConverter.CreateReferral | por/src/main/java/org/intermine/bio/dataconversion/PorConverter.java:1568-1615 | the referral cached under the patient/referral key: created once with the row's fields and patient link, merged into on Bradford; throws (`None`) when the key is cached and no dataset is set |
| Por.PorConverter.CreateContact | por/src/main/java/org/intermine/bio/dataconversion/PorConverter.java:1617-1651 | the contact cached under its key, created on first use and linked to the cached patient and referral |
| Por.PorConverter.StoreContact | por/src/main/java/org/intermine/bio/dataconversion/PorConverter.java:1653-1683 | a new Contact, linked to the cached patient and referral, is stored at once and not cached |
| Por.PorConverter.StoreOutcome | por/src/main/java/org/intermine/bio/dataconversion/PorConverter.java:1685-1741 | the outcome takes the next id, its patient is created when missing, it links the patient and the cached referral, and it is stored |
| Por.PorConverter.CreateDiagnostic | por/src/main/java/org/intermine/bio/dataconversion/PorConverter.java:1744-1784 | a new Diagnostic with the given values, linked to the cached patient and referral; not stored |
| Por.PorConverter.CreateAdditionalData | por/src/main/java/org/intermine/bio/dataconversion/PorConverter.java:1786-1804 | a new name/value item, linked to the cached patient, and to the cached referral when a referral id is given |
| Por.PorConverter.StorePatients | por/src/main/java/org/intermine/bio/dataconversion/PorConverter.java:1827-1831 | every cached patient is stored once, and nothing else |
| Por.PorConverter.StoreReferrals | por/src/main/java/org/intermine/bio/dataconversion/PorConverter.java:1833-1837 | every cached referral is stored once, and nothing else |
| Por.PorConverter.StoreContacts | por/src/main/java/org/intermine/bio/dataconversion/PorConverter.java:1839-1843 | every cached contact is stored once, and nothing else |
| Por.PorConverter.StoreSlot | por/src/main/java/org/intermine/bio/dataconversion/PorConverter.java:1313-1319 | one contact slot adds one stored Contact built from the slot's cells |
| Por.PorConverter.StoreSlots | por/src/main/java/org/intermine/bio/dataconversion/PorConverter.java:1310-1320 | the slot loop stores exactly the Contacts of the slots the scan finds, in order, and reports whether a short row threw |
| Por.PorConverter.StoreExtra | por/src/main/java/org/intermine/bio/dataconversion/PorConverter.java:1305 | one column adds one stored AdditionalData named by the header cell |
| Por.PorConverter.StoreExtras | por/src/main/java/org/intermine/bio/dataconversion/PorConverter.java:1303-1306 | the AdditionalData loop stores one item per listed column, in order, until a short row throws |
| Por.PorConverter.StoreScore | por/src/main/java/org/intermine/bio/dataconversion/PorConverter.java:1131-1134 | one score adds one stored Diagnostic dated by the cell and valued by the next |
| Por.PorConverter.StoreScores | por/src/main/java/org/intermine/bio/dataconversion/PorConverter.java:1127-1135 | the score loop stores exactly the Diagnostics of the non-empty score cells, in order |
| Por.PorConverter.OpenPatient | por/src/main/java/org/intermine/bio/dataconversion/PorConverter.java:1296 | `createPatient` for a row: the row's patient is cached, new only if it was not |
| Por.PorConverter.OpenReferral | por/src/main/java/org/intermine/bio/dataconversion/PorConverter.java:1298-1300 | `createReferral` for a row: only that row's referral is created or merged into |
| Por.PorConverter.OpenRow | por/src/main/java/org/intermine/bio/dataconversion/PorConverter.java:1296-1300 | a row's patient and referral are cached and older items are at most merged into |
| Por.PorConverter.CamdenStores | por/src/main/java/org/intermine/bio/dataconversion/PorConverter.java:1303-1320 | a Camden row's AdditionalData columns then its contact slots, exactly the items `CamdenStored` lists |
| Por.PorConverter.CamdenUse | por/src/main/java/org/intermine/bio/dataconversion/PorConverter.java:1277-1320 | a used Camden row caches its patient and referral and stores its AdditionalData and contacts |
| Por.PorConverter.CamdenLine | por/src/main/java/org/intermine/bio/dataconversion/PorConverter.java:1271-1321 | a Camden row is skipped when blank, used otherwise, and throws exactly when its cells run short |
| Por.PorConverter.StokeUse | por/src/main/java/org/intermine/bio/dataconversion/PorConverter.java:1367-1407 | a used Stoke on Trent row caches its patient and referral and stores its contacts |
| Por.PorConverter.StokeLine | por/src/main/java/org/intermine/bio/dataconversion/PorConverter.java:1361-1407 | a Stoke on Trent row is skipped when blank, used otherwise, and throws exactly when its cells run short |
| Por.PorConverter.BradfordPatientLine | por/src/main/java/org/intermine/bio/dataconversion/PorConverter.java:906-924 | a used Bradford patient row caches its patient and referral and carries its age and locality on |
| Por.PorConverter.BradfordContactUse | por/src/main/java/org/intermine/bio/dataconversion/PorConverter.java:944-953 | a Bradford contact row merges into or creates its referral and stores one contact |
| Por.PorConverter.BradfordContactLine | por/src/main/java/org/intermine/bio/dataconversion/PorConverter.java:925-954 | a Bradford contact row carries its referral values on, then merges its referral and stores its contact |
| Por.PorConverter.LewishamStores | por/src/main/java/org/intermine/bio/dataconversion/PorConverter.java:1025-1030 | a Lewisham patient row's AdditionalData columns then its contact, exactly the items `LewishamStored` lists |
| Por.PorConverter.StoreRowContact | por/src/main/java/org/intermine/bio/dataconversion/PorConverter.java:1029-1030 | the row's contact is stored after the row's other items |
| Por.PorConverter.LewishamUse | por/src/main/java/org/intermine/bio/dataconversion/PorConverter.java:1002-1030 | a used Lewisham patient row caches its patient and referral and stores its AdditionalData and contact |
| Por.PorConverter.LewishamPatientLine | por/src/main/java/org/intermine/bio/dataconversion/PorConverter.java:989-1031 | a Lewisham patient row is skipped when blank or shorter than 17 cells, and otherwise used or throws |
| Por.PorConverter.LewishamOutcomeUse | por/src/main/java/org/intermine/bio/dataconversion/PorConverter.java:1044 | a Lewisham outcome row stores one ClinicalOutcome for its patient |
| Por.PorConverter.LewishamOutcomeLine | por/src/main/java/org/intermine/bio/dataconversion/PorConverter.java:1032-1045 | a used Lewisham outcome row stores its outcome with episode, rating date, rating type and score |
| Por.PorConverter.SunderlandDataLine | por/src/main/java/org/intermine/bio/dataconversion/PorConverter.java:1092-1115 | a used Sunderland data row caches its patient and referral with the cleaned age and referral count |
| Por.PorConverter.SunderlandOutcomeLine | por/src/main/java/org/intermine/bio/dataconversion/PorConverter.java:1116-1136 | a used Sunderland outcome row stores one Diagnostic per score given |
| Por.PorConverter.RowStep | por/src/main/java/org/intermine/bio/dataconversion/PorConverter.java:1270-1322 | one row of any modelled layout: skipped, used, or throwing, as the layout's row function says |
| Por.PorConverter.ProcessRows | por/src/main/java/org/intermine/bio/dataconversion/PorConverter.java:1270-1322 | the row loop runs every row until one throws; caches only grow; items are only merged into; it stores items of the layout's classes |
| Por.PorConverter.ProcessSite | por/src/main/java/org/intermine/bio/dataconversion/PorConverter.java:1221-1325 | a site file: the header, the row loop, and the patient and referral flush when the file name asks for it (Camden, Stoke, and Bradford, Lewisham, Sunderland second files) |
| Por.PorConverter.ProcessContact | por/src/main/java/org/intermine/bio/dataconversion/PorConverter.java:342-416 | the contact cache is the first-call-wins cache of the rows' `createContact` calls, and all contacts are flushed once when no row threw |
| Por.PorConverter.ContactRows | por/src/main/java/org/intermine/bio/dataconversion/PorConverter.java:361-412 | the rows run in order up to the first that throws, each adding its calls to the contact cache |
| Por.PorConverter.ContactRow | por/src/main/java/org/intermine/bio/dataconversion/PorConverter.java:362-411 | one row throws exactly when the layout's step aborts, and otherwise leaves its locals and makes its calls |
| Por.PorConverter.ContactCall | por/src/main/java/org/intermine/bio/dataconversion/PorConverter.java:410-411 | one `createContact` call extends the first-call-wins cache |
| NhsRows.PatientAttributes | nhs/src/main/java/org/intermine/bio/dataconversion/NhsConverter.java:130-147 | a new patient carries an ethnicity or a gender exactly when its cell is non-empty, and always its identifier and site |
| NhsRows.ReadDemographicExactly | nhs/src/main/java/org/intermine/bio/dataconversion/NhsConverter.java:87-95 | the read stops exactly at the first row shorter than six cells and gives every row before it |
| NhsRows.ReadDemographicStops | nhs/src/main/java/org/intermine/bio/dataconversion/NhsConverter.java:87-95 | once a row has thrown, later rows are never read |
| NhsRows.ReadContactExactly | nhs/src/main/java/org/intermine/bio/dataconversion/NhsConverter.java:224-243 | the read stops exactly at the first row shorter than seventeen cells and gives every row before it |
| NhsRows.ReadContactStops | nhs/src/main/java/org/intermine/bio/dataconversion/NhsConverter.java:224-243 | once a row has thrown, later rows are never read |
| NhsRows.AcceptedExactly | nhs/src/main/java/org/intermine/bio/dataconversion/NhsConverter.java:245-249 | a contact row is used exactly when its patient is cached |
| NhsRows.ContactBackfillDistinct | nhs/src/main/java/org/intermine/bio/dataconversion/NhsConverter.java:252-263 | the nine attributes a contact row writes over its referral are distinct |
| NhsRows.YesUpTo | nhs/src/main/java/org/intermine/bio/dataconversion/NhsConverter.java:367-374 | the flag scan finds columns from 8 on, inside the header |
| NhsRows.YesUpToExactly | nhs/src/main/java/org/intermine/bio/dataconversion/NhsConverter.java:367-374 | the scan finds exactly the `yes` cells, in column order, and throws exactly at a cell past the header |
| NhsRows.YesUpToStops | nhs/src/main/java/org/intermine/bio/dataconversion/NhsConverter.java:367-374 | once a flag cell has thrown, later cells are never read |
| NhsRows.DiagnosticsOf | nhs/src/main/java/org/intermine/bio/dataconversion/NhsConverter.java:164-178 | one Diagnostic per flag column, observation from the header, linked to the patient and referral |
| NhsRows.DiagnosisRunStops | nhs/src/main/java/org/intermine/bio/dataconversion/NhsConverter.java:331-341 | once a diagnosis row has thrown, later rows are never read |
| NhsRows.SkippedDiagnosisRow | nhs/src/main/java/org/intermine/bio/dataconversion/NhsConverter.java:343-362 | a row whose patient or referral is not cached fills nothing and stores nothing |
| NhsRows.DiagnosisRowStores | nhs/src/main/java/org/intermine/bio/dataconversion/NhsConverter.java:367-374 | a row read in full stores one Diagnostic per `yes` cell, named by its header cell |
| NhsRows.AtMostOneReader | nhs/src/main/java/org/intermine/bio/dataconversion/NhsConverter.java:57-65 | a file name selects at most one reader |
| NhsRows.ReadersCases | nhs/src/main/java/org/intermine/bio/dataconversion/NhsConverter.java:57-65 | each reader runs exactly when the name ends in `csv` and equals its file name, ignoring case |
| NhsRows.ExtensionIsCaseSensitive | nhs/src/main/java/org/intermine/bio/dataconversion/NhsConverter.java:57-60 | `CAMPET.CSV` runs nothing while `Campet.csv` runs the demographic reader |
| Nhs.RefilledHit | nhs/src/main/java/org/intermine/bio/dataconversion/NhsConverter.java:252-263 | filling a cached referral writes the fill's non-null values over it |
| Nhs.DiagProgressFilled | nhs/src/main/java/org/intermine/bio/dataconversion/NhsConverter.java:350-357 | the referral fills of a diagnosis row keep the run's progress relation |
| Nhs.NhsConverter.constructor | nhs/src/main/java/org/intermine/bio/dataconversion/NhsConverter.java:49-51 | empty caches and no dataset reference |
| Nhs.NhsConverter.Process | nhs/src/main/java/org/intermine/bio/dataconversion/NhsConverter.java:54-68 | a non-`csv` file changes nothing; a `csv` file first registers the dataset (a new one is created and stored), then the one reader its name selects, if any, does to the caches and the writer what that reader's contract states; a file that selects no reader leaves the writer as the dataset step left it; other caches are untouched |
| Nhs.NhsConverter.RunReader | nhs/src/main/java/org/intermine/bio/dataconversion/NhsConverter.java:60-65 | no reader completes at once and leaves the writer unchanged; the demographics, contact and diagnosis files each get exactly their reader's effect on the caches, the created items and the stored log (first-call-wins caches, refills, flushes when no row threw); each reader changes only its own caches |
| Nhs.NhsConverter.CreateDataSet | nhs/src/main/java/org/intermine/bio/dataconversion/NhsConverter.java:112-127 | a name seen before changes nothing; a new one gets a DataSource and a DataSet, stored, and becomes the patients' dataset |
| Nhs.NhsConverter.StoreDataSet | nhs/src/main/java/org/intermine/bio/dataconversion/NhsConverter.java:116-124 | the DataSource and its DataSet take the next two ids and are stored in that order |
| Nhs.NhsConverter.CreatePatient | nhs/src/main/java/org/intermine/bio/dataconversion/NhsConverter.java:130-147 | the patient cached under the id, created on first use with the non-empty values and the dataset; nothing is stored |
| Nhs.NhsConverter.CreateReferral | nhs/src/main/java/org/intermine/bio/dataconversion/NhsConverter.java:149-162 | the referral cached under the key, created on first use with its age and patient link |
| Nhs.NhsConverter.CreateContact | nhs/src/main/java/org/intermine/bio/dataconversion/NhsConverter.java:276-294 | the contact cached under the patient/referral key, created on first use and linked to the cached patient |
| Nhs.NhsConverter.CreateDiagnostic | nhs/src/main/java/org/intermine/bio/dataconversion/NhsConverter.java:164-178 | a new Diagnostic, cached nowhere, linked to the cached patient and referral |
| Nhs.NhsConverter.ProcessDemographic | nhs/src/main/java/org/intermine/bio/dataconversion/NhsConverter.java:71-106 | an empty file throws; patients and referrals are the first-call-wins caches of the rows read; patients are flushed only when no row threw; referrals are not stored |
| Nhs.NhsConverter.DemographicRows | nhs/src/main/java/org/intermine/bio/dataconversion/NhsConverter.java:87-101 | the rows run until one throws, keeping first-call-wins for patients and referrals |
| Nhs.NhsConverter.DemographicLine | nhs/src/main/java/org/intermine/bio/dataconversion/NhsConverter.java:88-100 | one full row adds its patient and referral calls |
| Nhs.NhsConverter.RowPatient | nhs/src/main/java/org/intermine/bio/dataconversion/NhsConverter.java:99 | the row's patient is cached |
| Nhs.NhsConverter.RowReferral | nhs/src/main/java/org/intermine/bio/dataconversion/NhsConverter.java:100 | the row's referral is cached, linked to the row's patient |
| Nhs.NhsConverter.ProcessContact | nhs/src/main/java/org/intermine/bio/dataconversion/NhsConverter.java:205-274 | an empty file throws; contacts are the first-call-wins cache of the rows whose patient is cached; their referrals are refilled, last fill winning; nothing is stored |
| Nhs.NhsConverter.ContactRows | nhs/src/main/java/org/intermine/bio/dataconversion/NhsConverter.java:224-271 | the rows run until one throws, keeping the contact and refill relations |
| Nhs.NhsConverter.ContactLine | nhs/src/main/java/org/intermine/bio/dataconversion/NhsConverter.java:245-269 | a row whose patient is not cached is skipped; otherwise it refills its referral and creates its contact |
| Nhs.NhsConverter.ContactRefill | nhs/src/main/java/org/intermine/bio/dataconversion/NhsConverter.java:251-263 | the row's nine values are written over its cached referral, no other item changes |
| Nhs.NhsConverter.RowContact | nhs/src/main/java/org/intermine/bio/dataconversion/NhsConverter.java:268-269 | the row's contact call extends the first-call-wins cache |
| Nhs.NhsConverter.ProcessDiagnosis | nhs/src/main/java/org/intermine/bio/dataconversion/NhsConverter.java:297-382 | an empty file throws; each row refills its referral and stores its diagnostics; referrals then contacts are flushed only when no row threw |
| Nhs.NhsConverter.StoreReferralsAndContacts | nhs/src/main/java/org/intermine/bio/dataconversion/NhsConverter.java:378-379 | every cached referral, then every cached contact, is stored once |
| Nhs.NhsConverter.DiagnosisRows | nhs/src/main/java/org/intermine/bio/dataconversion/NhsConverter.java:331-376 | the rows run until one throws; the stored log is the diagnostics the run made |
| Nhs.NhsConverter.DiagnosisLine | nhs/src/main/java/org/intermine/bio/dataconversion/NhsConverter.java:332-375 | one row does what `DiagnosisRow` says: skipped, filled and flagged, or throwing |
| Nhs.NhsConverter.CachedDiagnosisLine | nhs/src/main/java/org/intermine/bio/dataconversion/NhsConverter.java:349-374 | a row whose patient and referral are cached refills the referral then stores its flag diagnostics |
| Nhs.NhsConverter.DiagnosisRefill | nhs/src/main/java/org/intermine/bio/dataconversion/NhsConverter.java:352-357 | `setAttributeIfNotNull` on the cached referral, once per pair |
| Nhs.NhsConverter.FlagCells | nhs/src/main/java/org/intermine/bio/dataconversion/NhsConverter.java:367-374 | the flag loop stores exactly the Diagnostics of the `yes` cells and throws exactly where the scan does |
| Nhs.NhsConverter.FlagStep | nhs/src/main/java/org/intermine/bio/dataconversion/NhsConverter.java:369-373 | one flag cell: stops the loop on a short header, stores a Diagnostic on `yes`, passes over otherwise |
| Nhs.NhsConverter.FlagCell | nhs/src/main/java/org/intermine/bio/dataconversion/NhsConverter.java:372 | `store(createDiagnostic(...))` for one `yes` cell |
| Nhs.NhsConverter.StorePatients | nhs/src/main/java/org/intermine/bio/dataconversion/NhsConverter.java:186-190 | every cached patient is stored once, and nothing else |
| Nhs.NhsConverter.StoreReferrals | nhs/src/main/java/org/intermine/bio/dataconversion/NhsConverter.java:192-196 | every cached referral is stored once, and nothing else |
| Nhs.NhsConverter.StoreContacts | nhs/src/main/java/org/intermine/bio/dataconversion/NhsConverter.java:198-202 | every cached contact is stored once, and nothing else |

## Left out

- POR `processPatient` (lines 163-340), `processDiagnosis` (418-503), `processWarrington`, `processManchester`, `processHerts`, `processBexley`, `processLuton` and `processNorfolk` are not modelled. They follow the same pattern as the five site loops that are modelled (Camden, Stoke on Trent, Bradford, Lewisham, Sunderland). They differ only in their per-site column indices, which are configuration.
- POR `process` is modelled as the choice of pipelines (`PorRows.Pipelines`), plus the site row loops and `processContact` that it runs. There is no single method that runs every selected pipeline, because the pipelines listed above are not modelled.
- The five modelled site loops share one method, `Por.PorConverter.ProcessRows`, which takes the file's row layout as a parameter. The Java has one loop per site.
- The `ref2pat` map is written only by `processPatient`, which is not modelled. `createContact` and `storeContact` read it as a field that starts empty.
- The `patAge` map is used only by `processManchester`, which is not modelled.
- The NHS `diagnostics` map is declared but never used. It is left out.
- Reading files, `FormattedTextParser`, the current-file lookup and logging are I/O. A file is given as the sequence of its rows, with each row a sequence of cells, and the file name as a parameter.
- `toLowerCase` and `equalsIgnoreCase` are modelled on ASCII letters only. Java also folds other letters.
- `HashMap` iteration order is left open. A flush returns the order it used as a ghost sequence. The contract states only that the order lists every key once.
- The internals of InterMine's `createItem`, `setAttribute` and `store` are outside this model. An item is a value held by the writer, and `store` is an append to a log. Whatever the plain `setAttribute` does with an empty string or a null value is not modelled: a null given to it is modelled as no attribute, as `setAttributeIfNotNull` would leave it. This covers the `identifier` of a POR patient and referral (PorConverter.java lines 1558 and 1578) and the `name` and `type` of a POR DataSet (lines 1817-1818).
- Por.PorConverter.CreateDataSet: a null site or type is modelled as a DataSet without that attribute, not as a throw. The case is reachable: `Por.PorConverter.SetDataset` on a POR file whose name matches no registry fragment, before any file has set a dataset, calls it with neither.
- A null `dataSetRef` is not modelled as a reference: a patient created before any dataset carries no `dataSet` reference.
- The `ithrivedb` converter is a stub and is not part of this model.
- Cleaners.GetSite: the contract gives only the range of results. The order of the rules is stated by `ExampleIdPrefixWins`, `ExampleTownIsNorfolk` and `GetSiteIdempotent`.
- Cleaners.CleanValue: the contract gives only the range of results. The case-insensitive folding is stated by `ExampleFaceToFace`.
- Por.PorConverter.ProcessRows: states the classes of the items a file stores, not their content. The content is stated row by row by the `…Line` and `…Use` methods.
- Por.PorConverter.ProcessSite: states the same as `ProcessRows` for the row loop, plus the flushes.
