/** Loading a topic's content files. The page fetches
    `/content/<topic>/manifest.json`, a JSON array of file names; keeps the
    names that are content files (module FileName); takes a pdf's URL as
    its content and fetches the body of every other file; and returns the
    files sorted by rank. Every failure yields the empty list.

    The network is an oracle: `Network.manifest` says what fetching and
    reading a manifest URL gives, `Network.file` what fetching a file URL
    and reading its text gives. The page starts the per-file fetches
    together and joins them with `Promise.all`; since the result does not
    depend on the order in which they complete, they are taken here one
    after the other, in manifest order. */
module Loader {
  import opened Options
  import opened Strings
  import opened FileName

  /** One content file as the page holds it: for a pdf the content is the
      file's URL, for markdown and html it is the fetched text. */
  datatype ContentItem = ContentItem(rank: nat, name: string, fileType: FileType, content: string)

  /** What fetching a manifest and reading it as JSON gives. */
  datatype ManifestResponse =
    | NotOk                            // a response whose status is not 2xx
    | Threw                            // fetch or json() rejected, or the JSON is not an array of strings
    | Listing(fileNames: seq<string>)

  /** What fetching a file and reading its text gives. The status of a file
      response is not looked at: any body that arrives is the content. */
  datatype FileResponse = Rejected | Body(text: string)

  datatype Network = Network(manifest: string -> ManifestResponse, file: string -> FileResponse)

  function ManifestUrl(topicId: string): string {
    "/content/" + topicId + "/manifest.json"
  }

  function FileUrl(topicId: string, fileName: string): string {
    "/content/" + topicId + "/" + fileName
  }

  /** The name is a content file whose body the page fetches (markdown or html). */
  predicate NeedsFetch(fileName: string) {
    ParseFileName(fileName).Some? && ParseFileName(fileName).value.fileType != Pdf
  }

  /** `item` is what the manifest entry `fileName` stands for: rank, name and
      type parsed from the name, content the pdf's URL or the fetched body. */
  predicate Describes(topicId: string, fileName: string, net: Network, item: ContentItem) {
    && ParseFileName(fileName) == Some(Entry(item.rank, item.name, item.fileType))
    && if item.fileType == Pdf then item.content == FileUrl(topicId, fileName)
       else net.file(FileUrl(topicId, fileName)) == Body(item.content)
  }

  /** What one manifest entry turns into. */
  datatype Outcome = Dropped | Loaded(item: ContentItem) | Failed

  /** The per-entry callback: a name that is not a content file is dropped
      (null), a pdf is its URL without any fetch, any other content file
      is its fetched body, and a rejected fetch fails the entry. */
  function LoadEntry(topicId: string, fileName: string, net: Network): (r: Outcome)
    ensures r.Dropped? <==> ParseFileName(fileName).None?
    ensures r.Failed? <==> NeedsFetch(fileName) && net.file(FileUrl(topicId, fileName)).Rejected?
    ensures r.Loaded? ==> Describes(topicId, fileName, net, r.item)
  {
    match ParseFileName(fileName)
    case None => Dropped
    case Some(e) =>
      if e.fileType == Pdf then
        Loaded(ContentItem(e.rank, e.name, e.fileType, FileUrl(topicId, fileName)))
      else
        match net.file(FileUrl(topicId, fileName))
        case Rejected => Failed
        case Body(text) => Loaded(ContentItem(e.rank, e.name, e.fileType, text))
  }

  /** `fileList.map(...)`: the outcome of every manifest entry, in order. */
  function Outcomes(topicId: string, names: seq<string>, net: Network): (os: seq<Outcome>)
    ensures |os| == |names|
    ensures forall i :: 0 <= i < |names| ==> os[i] == LoadEntry(topicId, names[i], net)
  {
    if names == [] then [] else [LoadEntry(topicId, names[0], net)] + Outcomes(topicId, names[1..], net)
  }

  /** `filter(Boolean)`: the loaded items, in order. */
  function Compact(os: seq<Outcome>): (items: seq<ContentItem>)
    ensures |items| <= |os|
    ensures forall x :: x in items <==> Loaded(x) in os
  {
    if os == [] then []
    else if os[0].Loaded? then [os[0].item] + Compact(os[1..])
    else Compact(os[1..])
  }

  /** The manifest's names that are content files, in manifest order. */
  function Matching(names: seq<string>): (ms: seq<string>)
    ensures forall f :: f in ms <==> f in names && ParseFileName(f).Some?
  {
    if names == [] then []
    else if ParseFileName(names[0]).Some? then [names[0]] + Matching(names[1..])
    else Matching(names[1..])
  }

  // ---------------------------------------------------------------------
  // Sorting by rank
  // ---------------------------------------------------------------------

  predicate SortedByRank(s: seq<ContentItem>) {
    forall i, j :: 0 <= i < j < |s| ==> s[i].rank <= s[j].rank
  }

  /** The items of rank `k`, in the order `s` has them. */
  function WithRank(s: seq<ContentItem>, k: nat): seq<ContentItem> {
    if s == [] then []
    else if s[0].rank == k then [s[0]] + WithRank(s[1..], k)
    else WithRank(s[1..], k)
  }

  /** Puts `x` before the first item whose rank is not below its own. */
  function Insert(x: ContentItem, s: seq<ContentItem>): (r: seq<ContentItem>)
    ensures multiset(r) == multiset(s) + multiset{x}
  {
    if s == [] || x.rank <= s[0].rank then [x] + s
    else
      assert s == [s[0]] + s[1..];
      [s[0]] + Insert(x, s[1..])
  }

  lemma {:induction false} InsertSorted(x: ContentItem, s: seq<ContentItem>)
    requires SortedByRank(s)
    ensures SortedByRank(Insert(x, s))
  {
    if s != [] && x.rank > s[0].rank {
      var tail := Insert(x, s[1..]);
      InsertSorted(x, s[1..]);
      forall y | y in tail ensures s[0].rank <= y.rank {
        assert y in multiset(tail);
        if y != x {
          assert y in s[1..];
        }
      }
      assert Insert(x, s) == [s[0]] + tail;
    }
  }

  /** `sort((a, b) => a.rank - b.rank)`: ascending by rank and, as
      ECMAScript has required of `Array.prototype.sort` since 2019, stable
      (see SortByRankStable). */
  function SortByRank(s: seq<ContentItem>): (r: seq<ContentItem>)
    ensures SortedByRank(r)
    ensures multiset(r) == multiset(s)
  {
    if s == [] then []
    else
      assert s == [s[0]] + s[1..];
      var sortedTail := SortByRank(s[1..]);
      InsertSorted(s[0], sortedTail);
      Insert(s[0], sortedTail)
  }

  /** Inserting `x` leaves the items of every other rank in their order,
      and puts `x` first among the items of its own rank. */
  lemma {:induction false} InsertWithRank(x: ContentItem, s: seq<ContentItem>, k: nat)
    ensures WithRank(Insert(x, s), k) == (if x.rank == k then [x] else []) + WithRank(s, k)
  {
    if s == [] || x.rank <= s[0].rank {
      assert ([x] + s)[1..] == s;
    } else {
      var tail := Insert(x, s[1..]);
      assert ([s[0]] + tail)[1..] == tail;
      InsertWithRank(x, s[1..], k);
    }
  }

  /** Stability: sorting keeps items of equal rank in their original order. */
  lemma {:induction false} SortByRankStable(s: seq<ContentItem>, k: nat)
    ensures WithRank(SortByRank(s), k) == WithRank(s, k)
  {
    if s != [] {
      SortByRankStable(s[1..], k);
      InsertWithRank(s[0], SortByRank(s[1..]), k);
    }
  }

  // ---------------------------------------------------------------------
  // loadFiles
  // ---------------------------------------------------------------------

  /** `loadFiles(topicId)`. A manifest that is not ok or cannot be read,
      and a single rejected file fetch (which rejects the whole
      `Promise.all`), all give the empty list; otherwise the loaded items
      sorted by rank. */
  function LoadFiles(topicId: string, net: Network): (files: seq<ContentItem>)
    ensures SortedByRank(files)
    ensures files != [] ==> net.manifest(ManifestUrl(topicId)).Listing?
    ensures forall x :: x in files ==>
              Loaded(x) in Outcomes(topicId, net.manifest(ManifestUrl(topicId)).fileNames, net)
  {
    match net.manifest(ManifestUrl(topicId))
    case NotOk => []
    case Threw => []
    case Listing(names) =>
      var os := Outcomes(topicId, names, net);
      if Failed in os then []
      else
        var sorted := SortByRank(Compact(os));
        assert forall x :: x in sorted ==> x in multiset(sorted);
        sorted
  }

  /** The loaded items of a manifest whose fetches all succeed are exactly
      the items of its content-file names, in manifest order. */
  lemma {:induction false} CompactOutcomes(topicId: string, names: seq<string>, net: Network)
    requires Failed !in Outcomes(topicId, names, net)
    ensures |Compact(Outcomes(topicId, names, net))| == |Matching(names)|
    ensures forall i :: 0 <= i < |Matching(names)| ==>
              Compact(Outcomes(topicId, names, net))[i] == LoadEntry(topicId, Matching(names)[i], net).item
  {
    if names != [] {
      var os := Outcomes(topicId, names, net);
      assert os == [os[0]] + Outcomes(topicId, names[1..], net);
      assert !os[0].Failed?;
      CompactOutcomes(topicId, names[1..], net);
      CompactStep(topicId, names, net);
    }
  }

  /** `items` holds, index by index, the item loaded for each of `names`. */
  predicate ItemsOf(topicId: string, net: Network, items: seq<ContentItem>, names: seq<string>) {
    && |items| == |names|
    && forall i :: 0 <= i < |names| ==>
         LoadEntry(topicId, names[i], net).Loaded? && items[i] == LoadEntry(topicId, names[i], net).item
  }

  /** One name of the manifest: a loaded head puts its item in front of the
      rest's items and its name in front of the rest's content names; a
      dropped head adds nothing to either. */
  lemma CompactStep(topicId: string, names: seq<string>, net: Network)
    requires names != [] && !LoadEntry(topicId, names[0], net).Failed?
    requires ItemsOf(topicId, net, Compact(Outcomes(topicId, names[1..], net)), Matching(names[1..]))
    ensures ItemsOf(topicId, net, Compact(Outcomes(topicId, names, net)), Matching(names))
  {
    var os := Outcomes(topicId, names, net);
    var head := LoadEntry(topicId, names[0], net);
    assert os[0] == head && os[1..] == Outcomes(topicId, names[1..], net);
    if head.Loaded? {
      assert Compact(os) == [head.item] + Compact(os[1..]);
      assert Matching(names) == [names[0]] + Matching(names[1..]);
      ItemsCons(topicId, net, Compact(os[1..]), Matching(names[1..]), names[0]);
    } else {
      assert Compact(os) == Compact(os[1..]);
      assert Matching(names) == Matching(names[1..]);
    }
  }

  /** Loading one more name in front keeps the items matched to the names. */
  lemma ItemsCons(topicId: string, net: Network, items: seq<ContentItem>, names: seq<string>, name: string)
    requires ItemsOf(topicId, net, items, names) && LoadEntry(topicId, name, net).Loaded?
    ensures ItemsOf(topicId, net, [LoadEntry(topicId, name, net).item] + items, [name] + names)
  {
  }

  /** Every failure gives the empty list and nothing propagates: a manifest
      that is not ok, one that cannot be read, and a rejected fetch of any
      markdown or html file the manifest lists. */
  lemma LoadFilesFailure(topicId: string, net: Network)
    requires || net.manifest(ManifestUrl(topicId)).NotOk?
             || net.manifest(ManifestUrl(topicId)).Threw?
             || (exists f :: f in net.manifest(ManifestUrl(topicId)).fileNames
                   && NeedsFetch(f) && net.file(FileUrl(topicId, f)).Rejected?)
    ensures LoadFiles(topicId, net) == []
  {
    if net.manifest(ManifestUrl(topicId)).Listing? {
      var names := net.manifest(ManifestUrl(topicId)).fileNames;
      var f :| f in names && NeedsFetch(f) && net.file(FileUrl(topicId, f)).Rejected?;
      var i :| 0 <= i < |names| && names[i] == f;
      assert Outcomes(topicId, names, net)[i] == Failed;
    }
  }

  /** When the manifest is read and every fetch succeeds, the result is
      sorted by rank, has one item per content-file name, is a permutation
      of those names' items, and keeps items of equal rank in manifest
      order. */
  lemma LoadFilesSorted(topicId: string, net: Network)
    requires net.manifest(ManifestUrl(topicId)).Listing?
    requires forall f :: f in net.manifest(ManifestUrl(topicId)).fileNames && NeedsFetch(f)
               ==> net.file(FileUrl(topicId, f)).Body?
    ensures var names := net.manifest(ManifestUrl(topicId)).fileNames;
            var loaded := Compact(Outcomes(topicId, names, net));
            && SortedByRank(LoadFiles(topicId, net))
            && |LoadFiles(topicId, net)| == |loaded| == |Matching(names)|
            && multiset(LoadFiles(topicId, net)) == multiset(loaded)
            && (forall k: nat :: WithRank(LoadFiles(topicId, net), k) == WithRank(loaded, k))
            && (forall i :: 0 <= i < |Matching(names)| ==>
                  loaded[i] == LoadEntry(topicId, Matching(names)[i], net).item)
  {
    var names := net.manifest(ManifestUrl(topicId)).fileNames;
    var os := Outcomes(topicId, names, net);
    assert Failed !in os by {
      forall i | 0 <= i < |os| ensures os[i] != Failed {
        assert names[i] in names;
      }
    }
    CompactOutcomes(topicId, names, net);
    var loaded := Compact(os);
    assert LoadFiles(topicId, net) == SortByRank(loaded);
    assert |LoadFiles(topicId, net)| == |loaded| by {
      assert |multiset(LoadFiles(topicId, net))| == |multiset(loaded)|;
    }
    forall k: nat ensures WithRank(LoadFiles(topicId, net), k) == WithRank(loaded, k) {
      SortByRankStable(loaded, k);
    }
  }

  /** Every item the page shows stands for one of the manifest's names:
      its rank, name and type come from that name, and its content is the
      pdf's URL or the body fetched from that name's URL. */
  lemma LoadFilesDescribe(topicId: string, net: Network, x: ContentItem)
    requires x in LoadFiles(topicId, net)
    ensures net.manifest(ManifestUrl(topicId)).Listing?
    ensures exists f :: f in net.manifest(ManifestUrl(topicId)).fileNames && Describes(topicId, f, net, x)
  {
    var names := net.manifest(ManifestUrl(topicId)).fileNames;
    var os := Outcomes(topicId, names, net);
    assert x in multiset(SortByRank(Compact(os)));
    CompactDescribes(topicId, names, net, x);
  }

  lemma {:induction false} CompactDescribes(topicId: string, names: seq<string>, net: Network, x: ContentItem)
    requires x in Compact(Outcomes(topicId, names, net))
    ensures exists f :: f in names && Describes(topicId, f, net, x)
  {
    var os := Outcomes(topicId, names, net);
    assert os[1..] == Outcomes(topicId, names[1..], net);
    if os[0].Loaded? && x == os[0].item {
      assert names[0] in names;
    } else {
      CompactDescribes(topicId, names[1..], net, x);
      var f :| f in names[1..] && Describes(topicId, f, net, x);
      assert f in names;
    }
  }

  /** No pdf is fetched: two networks that give the same manifest and the
      same bodies for the markdown and html files it lists give the same
      result, whatever they answer for the pdfs. */
  lemma PdfNeedsNoFetch(topicId: string, net1: Network, net2: Network)
    requires net1.manifest(ManifestUrl(topicId)) == net2.manifest(ManifestUrl(topicId))
    requires net1.manifest(ManifestUrl(topicId)).Listing? ==>
               forall f :: f in net1.manifest(ManifestUrl(topicId)).fileNames && NeedsFetch(f)
                 ==> net1.file(FileUrl(topicId, f)) == net2.file(FileUrl(topicId, f))
    ensures LoadFiles(topicId, net1) == LoadFiles(topicId, net2)
  {
    if net1.manifest(ManifestUrl(topicId)).Listing? {
      var names := net1.manifest(ManifestUrl(topicId)).fileNames;
      var os1 := Outcomes(topicId, names, net1);
      var os2 := Outcomes(topicId, names, net2);
      assert os1 == os2 by {
        forall i | 0 <= i < |names| ensures os1[i] == os2[i] {
          assert names[i] in names;
        }
      }
    }
  }
}
