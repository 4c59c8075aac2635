/** Queries over the decoded bookmark tree: `find_bookmark_folder` and
    `extract_urls`. */
module BookmarkTree {
  import opened Wrappers

  /** A JSON object of the backup. Each field is None when its key is
      absent. `hasChildren` says whether the "children" key is present;
      `children` is meaningful only when it is. */
  datatype Node = Node(kind: Option<string>, title: Option<string>, uri: Option<string>,
                       hasChildren: bool, children: seq<Node>)

  const ContainerType := "text/x-moz-place-container"
  const PlaceType := "text/x-moz-place"

  /** A bookmark folder whose title is exactly `name`. */
  predicate IsFolderNamed(n: Node, name: string) {
    n.kind == Some(ContainerType) && n.title == Some(name)
  }

  /** The nodes of a tree in pre-order: a node before its children,
      children left to right. */
  ghost function PreOrder(n: Node): seq<Node> {
    [n] + (if n.hasChildren then PreOrderAll(n.children) else [])
  }

  ghost function PreOrderAll(cs: seq<Node>): seq<Node> {
    if cs == [] then [] else PreOrder(cs[0]) + PreOrderAll(cs[1..])
  }

  /** The first node of `s` that is a folder named `name`. */
  ghost function FirstMatch(s: seq<Node>, name: string): (r: Option<Node>)
    ensures r.None? <==> forall k :: 0 <= k < |s| ==> !IsFolderNamed(s[k], name)
    ensures r.Some? ==> exists k :: 0 <= k < |s| && s[k] == r.value && IsFolderNamed(s[k], name)
                          && forall j :: 0 <= j < k ==> !IsFolderNamed(s[j], name)
  {
    if s == [] then None
    else if IsFolderNamed(s[0], name) then Some(s[0])
    else
      var r := FirstMatch(s[1..], name);
      assert forall k :: 1 <= k < |s| ==> s[k] == s[1..][k - 1];
      r
  }

  lemma {:induction false} FirstMatchAppend(a: seq<Node>, b: seq<Node>, name: string)
    ensures FirstMatch(a + b, name) == if FirstMatch(a, name).Some? then FirstMatch(a, name) else FirstMatch(b, name)
  {
    if a != [] {
      assert (a + b)[0] == a[0];
      assert (a + b)[1..] == a[1..] + b;
      FirstMatchAppend(a[1..], b, name);
    } else {
      assert a + b == b;
    }
  }

  /** `find_bookmark_folder`: the first folder named `name` in pre-order,
      or None when the tree has none. */
  function FindBookmarkFolder(node: Node, name: string): (r: Option<Node>)
    ensures r == FirstMatch(PreOrder(node), name)
  {
    if IsFolderNamed(node, name) then Some(node)
    else if node.hasChildren then
      var r := FindInChildren(node.children, name);
      FirstMatchAppend([node], PreOrderAll(node.children), name);
      r
    else
      assert PreOrder(node) == [node];
      None
  }

  /** The loop over `node['children']`: the first child subtree with a hit. */
  function FindInChildren(cs: seq<Node>, name: string): (r: Option<Node>)
    ensures r == FirstMatch(PreOrderAll(cs), name)
  {
    if cs == [] then None
    else
      FirstMatchAppend(PreOrder(cs[0]), PreOrderAll(cs[1..]), name);
      match FindBookmarkFolder(cs[0], name)
      case Some(found) => Some(found)
      case None => FindInChildren(cs[1..], name)
  }

  /** One record of `extract_urls`' result. */
  datatype UrlRecord = UrlRecord(url: string, title: string)

  /** A direct child that `extract_urls` turns into a record. */
  predicate IsUrlEntry(c: Node) {
    c.kind == Some(PlaceType) && c.uri.Some?
  }

  /** The record of a URL entry; a missing title becomes "Untitled". */
  function RecordOf(c: Node): UrlRecord
    requires c.uri.Some?
  {
    UrlRecord(c.uri.value, if c.title.Some? then c.title.value else "Untitled")
  }

  /** The records of the URL entries among `cs`, in order. */
  function UrlRecords(cs: seq<Node>): (r: seq<UrlRecord>)
    ensures |r| <= |cs|
  {
    if cs == [] then []
    else
      var last := cs[|cs| - 1];
      UrlRecords(cs[..|cs| - 1]) + if IsUrlEntry(last) then [RecordOf(last)] else []
  }

  /** Every record comes from a URL entry among `cs`. */
  lemma {:induction false} UrlRecordsSound(cs: seq<Node>)
    ensures forall k :: 0 <= k < |UrlRecords(cs)| ==>
      exists j :: 0 <= j < |cs| && IsUrlEntry(cs[j]) && UrlRecords(cs)[k] == RecordOf(cs[j])
  {
    if cs != [] {
      var prefix := cs[..|cs| - 1];
      var last := cs[|cs| - 1];
      UrlRecordsSound(prefix);
      var r := UrlRecords(cs);
      assert r == UrlRecords(prefix) + if IsUrlEntry(last) then [RecordOf(last)] else [];
      forall k | 0 <= k < |UrlRecords(cs)|
        ensures exists j :: 0 <= j < |cs| && IsUrlEntry(cs[j]) && UrlRecords(cs)[k] == RecordOf(cs[j])
      {
        if k < |UrlRecords(prefix)| {
          assert r[k] == UrlRecords(prefix)[k];
          var j :| 0 <= j < |prefix| && IsUrlEntry(prefix[j]) && UrlRecords(prefix)[k] == RecordOf(prefix[j]);
          assert prefix[j] == cs[j];
          assert IsUrlEntry(cs[j]) && r[k] == RecordOf(cs[j]);
        } else {
          assert IsUrlEntry(cs[|cs| - 1]) && r[k] == RecordOf(cs[|cs| - 1]);
        }
      }
    } else {
      assert UrlRecords(cs) == [];
    }
  }

  lemma {:induction false} UrlRecordsPrefix(cs: seq<Node>, m: nat)
    requires m <= |cs|
    ensures UrlRecords(cs[..m]) <= UrlRecords(cs)
    decreases |cs| - m
  {
    if m < |cs| {
      UrlRecordsPrefix(cs, m + 1);
      assert cs[..m + 1][..m] == cs[..m];
    } else {
      assert cs[..m] == cs;
    }
  }

  /** The positions of the URL entries among `cs`. */
  ghost function EntryIndices(cs: seq<Node>): set<int> {
    set j | 0 <= j < |cs| && IsUrlEntry(cs[j])
  }

  /** One more child adds its own position exactly when it is a URL entry. */
  lemma EntryIndicesSnoc(cs: seq<Node>)
    requires cs != []
    ensures var last := |cs| - 1;
      EntryIndices(cs) == EntryIndices(cs[..last]) + if IsUrlEntry(cs[last]) then {last} else {}
    ensures |cs| - 1 !in EntryIndices(cs[..|cs| - 1])
  {
    var init := cs[..|cs| - 1];
    assert forall j :: 0 <= j < |init| ==> init[j] == cs[j];
  }

  /** One record per URL entry: there are as many records as children of
      place type with a uri. */
  lemma {:induction false} UrlRecordsCount(cs: seq<Node>)
    ensures |UrlRecords(cs)| == |EntryIndices(cs)|
  {
    if cs != [] {
      var init := cs[..|cs| - 1];
      UrlRecordsCount(init);
      EntryIndicesSnoc(cs);
    }
  }

  /** Every URL entry among the children has its record in the result, at
      the position given by the number of URL entries before it: the result
      keeps child order and misses no entry. */
  lemma UrlRecordsAt(cs: seq<Node>, j: nat)
    requires j < |cs| && IsUrlEntry(cs[j])
    ensures |UrlRecords(cs[..j])| < |UrlRecords(cs)|
    ensures UrlRecords(cs)[|UrlRecords(cs[..j])|] == RecordOf(cs[j])
  {
    UrlRecordsPrefix(cs, j + 1);
    assert cs[..j + 1][..j] == cs[..j];
    assert UrlRecords(cs[..j + 1]) == UrlRecords(cs[..j]) + [RecordOf(cs[j])];
  }

  /** What `extract_urls` returns: nothing for a missing folder or one
      without children, else the records of its direct children. */
  function ExtractedUrls(folder: Option<Node>): seq<UrlRecord> {
    if folder.None? || !folder.value.hasChildren then [] else UrlRecords(folder.value.children)
  }

  /** `extract_urls`: builds the list by appending one record per URL entry. */
  method ExtractUrls(folder: Option<Node>) returns (urls: seq<UrlRecord>)
    ensures urls == ExtractedUrls(folder)
  {
    if folder.None? || !folder.value.hasChildren {
      return [];
    }
    var children := folder.value.children;
    urls := [];
    var i := 0;
    while i < |children|
      invariant 0 <= i <= |children|
      invariant urls == UrlRecords(children[..i])
    {
      assert children[..i + 1][..i] == children[..i];
      var item := children[i];
      if IsUrlEntry(item) {
        urls := urls + [RecordOf(item)];
      }
      i := i + 1;
    }
    assert children[..i] == children;
  }
}
