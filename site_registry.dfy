/**
  The POR site registry: which file-name fragment selects which dataset
  name and which site type. `setDataset` tests every fragment, in this
  order, with an independent `if`, so the last fragment found wins.
 */
module SiteRegistry {
  import opened JavaText

  const Control := "control"
  const Accelerator := "accelerator"

  datatype Site = Site(fragment: string, name: string, siteType: string)

  const SiteTable: seq<Site> := [
    Site("Bexley", "Bexley", Accelerator),
    Site("Bradford", "Bradford", Control),
    Site("Camden", "Camden", Accelerator),
    Site("Hertfordshire", "Hertfordshire", Accelerator),
    Site("Lewisham", "Lewisham", Control),
    Site("Luton", "Luton and Tower Hamlet", Accelerator),
    Site("Manchester", "Manchester and Salford", Accelerator),
    Site("NeCor", "Nene and Corby", Control),
    Site("Norfolk", "Norfolk", Control),
    Site("Portsmouth", "Portsmouth", Control),
    Site("Southampton", "Southampton", Control),
    Site("Stockport", "Stockport", Accelerator),
    Site("Stoke", "Stoke on Trent", Control),
    Site("Sunderland", "Sunderland", Control),
    Site("Waltham", "Waltham Forest", Accelerator),
    Site("Warrington", "Warrington", Accelerator),
    Site("Worcester", "Worcester", Control)
  ]

  /** The dataset name and site type after the `if`s of `table` have run, in
      order, on a file name, starting from the current pair. */
  function Resolve(table: seq<Site>, fileName: string, dataSet: Option<string>, siteType: Option<string>)
    : (Option<string>, Option<string>)
    decreases |table|
  {
    if table == [] then (dataSet, siteType)
    else
      var last := table[|table| - 1];
      if Contains(fileName, last.fragment) then (Some(last.name), Some(last.siteType))
      else Resolve(table[..|table| - 1], fileName, dataSet, siteType)
  }

  /** One more `if` of the chain: entry `k` overrides what the first `k` decided. */
  lemma ResolveStep(table: seq<Site>, fileName: string, dataSet: Option<string>, siteType: Option<string>, k: nat)
    requires k < |table|
    ensures Resolve(table[..k + 1], fileName, dataSet, siteType)
            == if Contains(fileName, table[k].fragment) then (Some(table[k].name), Some(table[k].siteType))
               else Resolve(table[..k], fileName, dataSet, siteType)
  {
    assert table[..k + 1][..k] == table[..k];
  }

  /** The last entry whose fragment occurs in the file name decides both values. */
  lemma {:induction false} ResolveLastMatch(table: seq<Site>, fileName: string,
                                           dataSet: Option<string>, siteType: Option<string>, i: nat)
    requires i < |table| && Contains(fileName, table[i].fragment)
    requires forall j :: i < j < |table| ==> !Contains(fileName, table[j].fragment)
    ensures Resolve(table, fileName, dataSet, siteType) == (Some(table[i].name), Some(table[i].siteType))
    decreases |table|
  {
    if i < |table| - 1 {
      var init := table[..|table| - 1];
      assert forall j :: i < j < |init| ==> init[j] == table[j];
      ResolveLastMatch(init, fileName, dataSet, siteType, i);
    }
  }

  /** A file name with none of the fragments leaves both values as they were. */
  lemma {:induction false} ResolveNoMatch(table: seq<Site>, fileName: string,
                                         dataSet: Option<string>, siteType: Option<string>)
    requires forall j :: 0 <= j < |table| ==> !Contains(fileName, table[j].fragment)
    ensures Resolve(table, fileName, dataSet, siteType) == (dataSet, siteType)
    decreases |table|
  {
    if table != [] {
      var init := table[..|table| - 1];
      assert forall j :: 0 <= j < |init| ==> init[j] == table[j];
      ResolveNoMatch(init, fileName, dataSet, siteType);
    }
  }

  /** A file name with some registered fragment always ends with a dataset. */
  lemma {:induction false} ResolveFound(table: seq<Site>, fileName: string,
                                       dataSet: Option<string>, siteType: Option<string>, i: nat)
    requires i < |table| && Contains(fileName, table[i].fragment)
    ensures Resolve(table, fileName, dataSet, siteType).0.Some?
    decreases |table|
  {
    var last := table[|table| - 1];
    if !Contains(fileName, last.fragment) {
      var init := table[..|table| - 1];
      assert init[i] == table[i];
      ResolveFound(init, fileName, dataSet, siteType, i);
    }
  }

  /** Whatever was set before, a match leaves a registered site type. */
  lemma {:induction false} ResolveSiteType(table: seq<Site>, fileName: string,
                                          dataSet: Option<string>, siteType: Option<string>)
    requires forall j :: 0 <= j < |table| ==> table[j].siteType in {Control, Accelerator}
    ensures var (_, t) := Resolve(table, fileName, dataSet, siteType);
            t == siteType || (t.Some? && t.value in {Control, Accelerator})
    decreases |table|
  {
    if table != [] {
      var init := table[..|table| - 1];
      assert forall j :: 0 <= j < |init| ==> init[j] == table[j];
      ResolveSiteType(init, fileName, dataSet, siteType);
    }
  }

  /** A file name mentioning two sites belongs to the one tested later:
      `StockportStoke.csv` is a Stoke on Trent file. */
  lemma ExampleLaterFragmentWins(table: seq<Site>, fileName: string)
    requires table == SiteTable && fileName == "StockportStoke.csv"
    ensures Resolve(table, fileName, None, None) == (Some("Stoke on Trent"), Some(Control))
  {
    StockportStokeFragments(fileName);
    LaterFragments(table);
    ResolveLastMatch(table, fileName, None, None, 12);
  }

  /** The entries of the registry from Stoke on Trent to the end. */
  lemma LaterFragments(table: seq<Site>)
    requires table == SiteTable
    ensures |table| == 17 && table[12] == Site("Stoke", "Stoke on Trent", Control)
    ensures forall j :: 12 < j < |table| ==> table[j].fragment in {"Sunderland", "Waltham", "Warrington", "Worcester"}
  {
  }

  /** The fragments found in `StockportStoke.csv` from `Stoke` on. */
  lemma StockportStokeFragments(fileName: string)
    requires fileName == "StockportStoke.csv"
    ensures Contains(fileName, "Stoke")
    ensures !Contains(fileName, "Sunderland") && !Contains(fileName, "Waltham")
    ensures !Contains(fileName, "Warrington") && !Contains(fileName, "Worcester")
  {
    StockportHasStoke(fileName);
    assert fileName[1..] == "tockportStoke.csv";
    AbsentByCharAt(fileName, "Sunderland", 1);
    StockportLacksW(fileName);
  }

  lemma StockportHasStoke(fileName: string)
    requires fileName == "StockportStoke.csv"
    ensures Contains(fileName, "Stoke")
  {
    assert fileName[9..14] == "Stoke";
    ContainsAt(fileName, "Stoke", 9);
  }

  lemma StockportLacksW(fileName: string)
    requires fileName == "StockportStoke.csv"
    ensures !Contains(fileName, "Waltham") && !Contains(fileName, "Warrington") && !Contains(fileName, "Worcester")
  {
    AbsentByFirstChar(fileName, "Waltham");
    AbsentByFirstChar(fileName, "Warrington");
    AbsentByFirstChar(fileName, "Worcester");
  }
}
