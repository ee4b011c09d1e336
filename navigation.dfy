/** The reader's navigation state and the handlers that change it. The
    state is the page's: the files of the selected topic, the index of the
    file on show, the selected topic, which topics are expanded in the
    sidebar, and the address-bar hash the handlers write so that a page can
    be linked to and re-entered. */
module Navigation {
  import opened Options
  import opened Strings
  import opened FileName
  import opened Loader
  import opened Markdown

  /** A topic of the sidebar. Its icon is presentation and is left out. */
  datatype Topic = Topic(id: string, name: string, description: string)

  /** The topics the page lists, in sidebar order. */
  const Topics: seq<Topic> := [
    Topic("javascript", "JavaScript Fundamentals", "Learn the core concepts of JavaScript programming"),
    Topic("ai", "Artificial Intelligence", "Learn the core concepts of Artificial Intelligence programming"),
    Topic("react", "React Basics", "Understanding React components and hooks"),
    Topic("lwc", "Lightning Web Components", "Building modern Salesforce applications with LWC"),
    Topic("nodejs", "Node.js Backend", "Server-side JavaScript with Node.js")
  ]

  /** `topicsData.find(t => t.id === selectedTopic)`. */
  function FindTopic(id: Option<string>): (r: Option<Topic>)
    ensures r.Some? ==> r.value in Topics && id == Some(r.value.id)
    ensures r.None? <==> (id.None? || forall k :: 0 <= k < |Topics| ==> Topics[k].id != id.value)
  {
    if id.None? then None else FindTopicFrom(id.value, 0)
  }

  function FindTopicFrom(id: string, from: nat): (r: Option<Topic>)
    requires from <= |Topics|
    ensures r.Some? ==> r.value in Topics[from..] && r.value.id == id
    ensures r.Some? ==> exists k :: from <= k < |Topics| && Topics[k] == r.value &&
                          forall j :: from <= j < k ==> Topics[j].id != id
    ensures r.None? <==> forall k :: from <= k < |Topics| ==> Topics[k].id != id
    decreases |Topics| - from
  {
    if from == |Topics| then None
    else if Topics[from].id == id then Some(Topics[from])
    else FindTopicFrom(id, from + 1)
  }

  // ---------------------------------------------------------------------
  // Deep links
  // ---------------------------------------------------------------------

  /** The parameters of the route `/learningroute/:topicId/:rank`; on
      `/learningroute` there are none. */
  datatype RouteParams = NoParams | Params(topicId: string, rank: string)

  /** The hash a handler writes for the file of rank `rank` in topic
      `topicId`, `/learningroute/${topicId}/${rank}`: the route's prefix, the
      topic id and a slash, then the rank's decimal digits. */
  function DeepLink(topicId: string, rank: nat): (link: string)
    ensures StartsWith(link, "/learningroute/" + topicId + "/")
    ensures var digits := link[|"/learningroute/" + topicId + "/"|..];
            digits != [] && AllDigits(digits) && DecimalValue(digits) == rank
  {
    var prefix := "/learningroute/" + topicId + "/";
    var link := prefix + NatToString(rank);
    assert link[..|prefix|] == prefix && link[|prefix|..] == NatToString(rank);
    link
  }

  /** Matching a path against `/learningroute/:topicId/:rank`: after the
      fixed prefix, two non-empty segments separated by one slash. */
  function MatchRoute(path: string): (r: RouteParams)
    ensures r.Params? ==> path == "/learningroute/" + r.topicId + "/" + r.rank
    ensures r.Params? ==> r.topicId != [] && r.rank != []
    ensures r.Params? ==> !Contains(r.topicId, "/") && !Contains(r.rank, "/")
  {
    var prefix := "/learningroute/";
    if !StartsWith(path, prefix) then NoParams
    else
      var rest := path[|prefix|..];
      assert path == prefix + rest;
      match IndexOfFrom(rest, "/", 0)
      case None => NoParams
      case Some(i) =>
        var topicId := rest[..i];
        var rank := rest[i + 1..];
        PrefixBeforeFirstOccurrence(rest, "/", i);
        assert rest == topicId + "/" + rank by {
          assert rest[i..i + 1] == "/";
        }
        if topicId == [] || rank == [] || Contains(rank, "/") then NoParams
        else Params(topicId, rank)
  }

  /** Every path of the route's shape matches, with its two segments as
      parameters: together with MatchRoute's contract, a path matches
      exactly when it is the prefix, a non-empty topic id and a non-empty
      rank text, both free of `/`, joined by one slash. */
  lemma MatchShape(topicId: string, rank: string)
    requires topicId != [] && '/' !in topicId
    requires rank != [] && '/' !in rank
    ensures MatchRoute("/learningroute/" + topicId + "/" + rank) == Params(topicId, rank)
  {
    var prefix := "/learningroute/";
    var rest := topicId + "/" + rank;
    assert (prefix + topicId + "/" + rank)[|prefix|..] == rest;
    FirstSlash(topicId, rank);
    NoSlash(rank);
  }

  /** A deep link names its topic and its rank's decimal digits again. */
  lemma MatchDeepLink(topicId: string, rank: nat)
    requires topicId != [] && '/' !in topicId
    ensures MatchRoute(DeepLink(topicId, rank)) == Params(topicId, NatToString(rank))
  {
    var digits := NatToString(rank);
    assert '/' !in digits;
    MatchShape(topicId, digits);
  }

  /** The first slash after a slash-free topic id ends it. */
  lemma FirstSlash(topicId: string, rank: string)
    requires '/' !in topicId
    ensures IndexOfFrom(topicId + "/" + rank, "/", 0) == Some(|topicId|)
    ensures (topicId + "/" + rank)[..|topicId|] == topicId
    ensures (topicId + "/" + rank)[|topicId| + 1..] == rank
  {
    var rest := topicId + "/" + rank;
    assert OccursAt(rest, "/", |topicId|);
    forall j: nat | j < |topicId| ensures !OccursAt(rest, "/", j) {
      assert rest[j..j + 1] == [topicId[j]];
    }
  }

  /** A string without the character `/` does not contain the string "/". */
  lemma NoSlash(s: string)
    requires '/' !in s
    ensures !Contains(s, "/")
  {
    forall j: nat | j < |s| ensures !OccursAt(s, "/", j) {
      assert s[j..j + 1] == [s[j]];
    }
  }

  /** `files.findIndex(f => f.rank === rank)`, with `None` standing for
      `NaN`, which equals no rank: the first index holding that rank, or
      -1. */
  function FindRankIndex(files: seq<ContentItem>, rank: Option<int>): (i: int)
    ensures -1 <= i < |files|
    ensures i >= 0 ==> rank.Some? && files[i].rank == rank.value
    ensures i >= 0 ==> forall j :: 0 <= j < i ==> files[j].rank != rank.value
    ensures i == -1 <==> (rank.None? || forall j :: 0 <= j < |files| ==> files[j].rank != rank.value)
  {
    if rank.None? || files == [] then -1
    else if files[0].rank == rank.value then 0
    else
      var k := FindRankIndex(files[1..], rank);
      if k == -1 then -1 else k + 1
  }

  predicate DistinctRanks(files: seq<ContentItem>) {
    forall i, j :: 0 <= i < j < |files| ==> files[i].rank != files[j].rank
  }

  /** Re-entering the page through the hash a handler wrote for file `i`
      shows file `i` again, when no two files share a rank: the route
      gives back the topic and the rank's digits, `parseInt` reads the
      rank, and the search finds `i`. */
  lemma DeepLinkRoundTrip(topicId: string, files: seq<ContentItem>, i: nat)
    requires topicId != [] && '/' !in topicId
    requires i < |files| && DistinctRanks(files)
    ensures MatchRoute(DeepLink(topicId, files[i].rank)).Params?
    ensures FindRankIndex(files, ParseInt(MatchRoute(DeepLink(topicId, files[i].rank)).rank)) == i
  {
    MatchDeepLink(topicId, files[i].rank);
    ParseIntNatToString(files[i].rank);
  }

  /** With ranks shared, re-entry shows the first file of that rank. */
  lemma DeepLinkFirstOfRank(files: seq<ContentItem>, i: nat)
    requires i < |files|
    ensures var k := FindRankIndex(files, ParseInt(NatToString(files[i].rank)));
            0 <= k <= i && files[k].rank == files[i].rank
  {
    ParseIntNatToString(files[i].rank);
  }

  // ---------------------------------------------------------------------
  // Pagination
  // ---------------------------------------------------------------------

  /** `handleNext`'s index: one further unless already at the last file. */
  function NextIndex(i: nat, n: nat): (j: nat)
    ensures i < n ==> j < n
    ensures j == i || j == i + 1
    ensures j == i <==> i + 1 >= n
  {
    if i < n - 1 then i + 1 else i
  }

  /** `handlePrev`'s index: one back unless already at the first file. */
  function PrevIndex(i: nat): (j: nat)
    ensures j <= i
    ensures j == i || j + 1 == i
    ensures j == i <==> i == 0
  {
    if i > 0 then i - 1 else i
  }

  /** A Next that moved is undone by Prev, and a Prev that moved by Next. */
  lemma PagingUndo(i: nat, n: nat)
    ensures NextIndex(i, n) != i ==> PrevIndex(NextIndex(i, n)) == i
    ensures PrevIndex(i) != i && i < n ==> NextIndex(PrevIndex(i), n) == i
  {
  }

  /** The route names both a topic and a rank (both non-empty, as `topicId && rank` asks). */
  predicate NamesFile(params: RouteParams) {
    params.Params? && params.topicId != "" && params.rank != ""
  }

  /** `!selectedTopic`: no topic, or the empty id. */
  predicate NoTopic(selected: Option<string>) {
    selected.None? || selected == Some("")
  }

  /** The sidebar shows a topic expanded when its entry is `true`; a
      missing entry reads as `undefined`, that is, collapsed. */
  function Expanded(expanded: map<string, bool>, topicId: string): bool {
    topicId in expanded && expanded[topicId]
  }

  // ---------------------------------------------------------------------
  // The page's state
  // ---------------------------------------------------------------------

  class Reader {
    var files: seq<ContentItem>
    var currentFileIndex: nat
    var selectedTopic: Option<string>
    var expandedTopics: map<string, bool>
    var hash: string

    /** Files are only ever set together with the topic they belong to. */
    ghost predicate Valid()
      reads this
    {
      |files| > 0 ==> selectedTopic.Some?
    }

    /** `files[currentFileIndex]`: absent when the index is out of range. */
    function CurrentFile(): (r: Option<ContentItem>)
      reads this
      ensures r.Some? <==> currentFileIndex < |files|
      ensures r.Some? ==> r.value == files[currentFileIndex]
    {
      if currentFileIndex < |files| then Some(files[currentFileIndex]) else None
    }

    /** What the content area shows: the current file, rendered by its
        type, once there is a current file and the selected topic is one
        of the page's topics. */
    function Shown(): (v: Option<View>)
      reads this
      ensures v.Some? <==> CurrentFile().Some? && FindTopic(selectedTopic).Some?
      ensures v.Some? ==> v.value == RenderContent(CurrentFile().value.content, CurrentFile().value.fileType)
    {
      match CurrentFile()
      case None => None
      case Some(file) =>
        if FindTopic(selectedTopic).None? then None
        else Some(RenderContent(file.content, file.fileType))
    }

    /** The page as first rendered: nothing loaded, no topic, index 0,
        nothing expanded; the hash is whatever the address bar holds. */
    constructor (initialHash: string)
      ensures Valid()
      ensures files == [] && currentFileIndex == 0 && selectedTopic == None
      ensures expandedTopics == map[] && hash == initialHash
    {
      files := [];
      currentFileIndex := 0;
      selectedTopic := None;
      expandedTopics := map[];
      hash := initialHash;
    }

    /** The effect that runs on entry and whenever the route parameters
        change. With a topic and a rank in the route, it loads that topic,
        expands it and shows the first file of that rank (the first file
        when none has it), leaving the hash alone. Otherwise, when no
        topic is selected yet, it loads the first topic, makes it the only
        expanded one, shows its first file and writes that file's hash. */
    method InitializeFromURL(params: RouteParams, net: Network)
      requires Valid()
      modifies this
      ensures Valid()
      ensures NamesFile(params) ==>
                && files == LoadFiles(params.topicId, net)
                && selectedTopic == Some(params.topicId)
                && expandedTopics == old(expandedTopics)[params.topicId := true]
                && currentFileIndex == (var k := FindRankIndex(files, ParseInt(params.rank));
                                        if k >= 0 then k else 0)
                && hash == old(hash)
      ensures !NamesFile(params) && NoTopic(old(selectedTopic)) ==>
                && files == LoadFiles(Topics[0].id, net)
                && selectedTopic == Some(Topics[0].id)
                && expandedTopics == map[Topics[0].id := true]
                && currentFileIndex == 0
                && hash == (if |files| > 0 then DeepLink(Topics[0].id, files[0].rank) else old(hash))
      ensures !NamesFile(params) && !NoTopic(old(selectedTopic)) ==>
                && files == old(files) && selectedTopic == old(selectedTopic)
                && expandedTopics == old(expandedTopics)
                && currentFileIndex == old(currentFileIndex) && hash == old(hash)
      ensures NamesFile(params) || NoTopic(old(selectedTopic)) ==> (CurrentFile().Some? <==> |files| > 0)
    {
      if NamesFile(params) {
        var topicFiles := LoadFiles(params.topicId, net);
        OpenAtRank(params.topicId, topicFiles, params.rank);
      } else if NoTopic(selectedTopic) && |Topics| > 0 {
        var firstTopic := Topics[0].id;
        var topicFiles := LoadFiles(firstTopic, net);
        OpenFirst(firstTopic, topicFiles);
      }
    }

    /** The route branch of InitializeFromURL once the topic's files are
        loaded: show them, select and expand the topic, and go to the first
        file of the route's rank (the first file when none has it). */
    method OpenAtRank(topicId: string, topicFiles: seq<ContentItem>, rankText: string)
      modifies this
      ensures Valid()
      ensures files == topicFiles && selectedTopic == Some(topicId)
      ensures expandedTopics == old(expandedTopics)[topicId := true]
      ensures currentFileIndex == (var k := FindRankIndex(files, ParseInt(rankText));
                                   if k >= 0 then k else 0)
      ensures hash == old(hash)
      ensures CurrentFile().Some? <==> |files| > 0
    {
      files := topicFiles;
      selectedTopic := Some(topicId);
      expandedTopics := expandedTopics[topicId := true];
      var fileIndex := FindRankIndex(topicFiles, ParseInt(rankText));
      currentFileIndex := if fileIndex >= 0 then fileIndex else 0;
    }

    /** The first-topic branch of InitializeFromURL once that topic's files
        are loaded: show them, select the topic and make it the only
        expanded one, go to the first file and write its hash. */
    method OpenFirst(topicId: string, topicFiles: seq<ContentItem>)
      modifies this
      ensures Valid()
      ensures files == topicFiles && selectedTopic == Some(topicId)
      ensures expandedTopics == map[topicId := true]
      ensures currentFileIndex == 0
      ensures hash == (if |files| > 0 then DeepLink(topicId, files[0].rank) else old(hash))
      ensures CurrentFile().Some? <==> |files| > 0
    {
      files := topicFiles;
      selectedTopic := Some(topicId);
      expandedTopics := map[topicId := true];
      currentFileIndex := 0;
      if |topicFiles| > 0 {
        hash := DeepLink(topicId, topicFiles[0].rank);
      }
    }

    /** A click on a topic in the sidebar: load its files (afresh, every
        time), select it, go back to its first file, flip its expansion
        and leave every other topic's as it was, and write the first
        file's hash when there is one. */
    method HandleTopicClick(topicId: string, net: Network)
      requires Valid()
      modifies this
      ensures Valid()
      ensures files == LoadFiles(topicId, net)
      ensures selectedTopic == Some(topicId)
      ensures currentFileIndex == 0
      ensures CurrentFile().Some? <==> |files| > 0
      ensures expandedTopics == old(expandedTopics)[topicId := !Expanded(old(expandedTopics), topicId)]
      ensures Expanded(expandedTopics, topicId) == !Expanded(old(expandedTopics), topicId)
      ensures forall t :: t != topicId ==> Expanded(expandedTopics, t) == Expanded(old(expandedTopics), t)
      ensures hash == if |files| > 0 then DeepLink(topicId, files[0].rank) else old(hash)
    {
      var topicFiles := LoadFiles(topicId, net);
      ShowTopic(topicId, topicFiles);
    }

    /** HandleTopicClick once the topic's files are loaded: show them,
        select the topic, go to its first file, flip its expansion and
        write the first file's hash when there is one. */
    method ShowTopic(topicId: string, topicFiles: seq<ContentItem>)
      modifies this
      ensures Valid()
      ensures files == topicFiles && selectedTopic == Some(topicId) && currentFileIndex == 0
      ensures CurrentFile().Some? <==> |files| > 0
      ensures expandedTopics == old(expandedTopics)[topicId := !Expanded(old(expandedTopics), topicId)]
      ensures Expanded(expandedTopics, topicId) == !Expanded(old(expandedTopics), topicId)
      ensures forall t :: t != topicId ==> Expanded(expandedTopics, t) == Expanded(old(expandedTopics), t)
      ensures hash == if |files| > 0 then DeepLink(topicId, files[0].rank) else old(hash)
    {
      files := topicFiles;
      selectedTopic := Some(topicId);
      currentFileIndex := 0;
      expandedTopics := expandedTopics[topicId := !Expanded(expandedTopics, topicId)];
      if |topicFiles| > 0 {
        hash := DeepLink(topicId, topicFiles[0].rank);
      }
    }

    /** A click on a file in the sidebar. The index is taken without a
        bounds check: out of range, there is no current file and the hash
        is left alone. */
    method HandleFileClick(index: nat)
      requires Valid()
      modifies this
      ensures Valid()
      ensures files == old(files) && selectedTopic == old(selectedTopic)
      ensures expandedTopics == old(expandedTopics)
      ensures currentFileIndex == index
      ensures CurrentFile().Some? <==> index < |files|
      ensures hash == if index < |files| then DeepLink(selectedTopic.value, files[index].rank) else old(hash)
    {
      currentFileIndex := index;
      if index < |files| {
        hash := DeepLink(selectedTopic.value, files[index].rank);
      }
    }

    /** The Next button: one file further unless on the last one. */
    method HandleNext()
      requires Valid()
      modifies this
      ensures Valid()
      ensures files == old(files) && selectedTopic == old(selectedTopic)
      ensures expandedTopics == old(expandedTopics)
      ensures currentFileIndex == NextIndex(old(currentFileIndex), |files|)
      ensures old(currentFileIndex) < |files| ==> currentFileIndex < |files|
      ensures hash == if currentFileIndex != old(currentFileIndex)
                      then DeepLink(selectedTopic.value, files[currentFileIndex].rank)
                      else old(hash)
    {
      if currentFileIndex < |files| - 1 {
        var newIndex := currentFileIndex + 1;
        currentFileIndex := newIndex;
        hash := DeepLink(selectedTopic.value, files[newIndex].rank);
      }
    }

    /** The Previous button: one file back unless on the first one. From
        an index beyond the list (a file click can leave one), the index
        moves but reading the missing file's rank throws before the hash
        is written. */
    method HandlePrev()
      requires Valid()
      modifies this
      ensures Valid()
      ensures files == old(files) && selectedTopic == old(selectedTopic)
      ensures expandedTopics == old(expandedTopics)
      ensures currentFileIndex == PrevIndex(old(currentFileIndex))
      ensures old(currentFileIndex) < |files| ==> currentFileIndex < |files|
      ensures hash == if currentFileIndex != old(currentFileIndex) && currentFileIndex < |files|
                      then DeepLink(selectedTopic.value, files[currentFileIndex].rank)
                      else old(hash)
    {
      if currentFileIndex > 0 {
        var newIndex := currentFileIndex - 1;
        currentFileIndex := newIndex;
        if newIndex < |files| {
          hash := DeepLink(selectedTopic.value, files[newIndex].rank);
        }
      }
    }
  }

  /** Opening a topic, paging forward once, and then opening a fresh page
      at the hash the first one wrote shows the same file, when the
      topic's files have distinct ranks and the network answers the same
      both times. */
  method ReopenAtHash(topicId: string, net: Network) returns (shown: nat, reopened: nat)
    requires topicId != [] && '/' !in topicId
    requires DistinctRanks(LoadFiles(topicId, net))
    ensures shown == reopened
  {
    var page := new Reader("");
    page.HandleTopicClick(topicId, net);
    page.HandleNext();
    shown := page.currentFileIndex;
    var link := page.hash;
    var files := page.files;
    if |files| > 0 {
      assert link == DeepLink(topicId, files[shown].rank);
      MatchDeepLink(topicId, files[shown].rank);
      DeepLinkRoundTrip(topicId, files, shown);
      assert NamesFile(MatchRoute(link));
    } else {
      assert link == "";
      assert !NamesFile(MatchRoute(link));
    }
    var again := new Reader(link);
    again.InitializeFromURL(MatchRoute(link), net);
    reopened := again.currentFileIndex;
  }
}
