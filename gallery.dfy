/** The Gallery page (Gallery.jsx): normalising stored IPFS references,
    loading every registered artwork through the read-only ledger instance
    (with sample records as the fallback), and the search-and-sort view
    over the loaded records. */
module Gallery {
  import opened Wrappers
  import opened Js
  import opened Ledger

  /** A record as the page shows it; `timestampMs` is milliseconds since
      the epoch. */
  datatype Artwork = Artwork(
    id: string, title: string, description: string, image: string,
    owner: string, timestampMs: int, contentHash: string, ipfsHash: string)

  const IpfsPath: string := "/ipfs/"

  const GatewayName: string := "gateway.pinata.cloud"

  // ------------------------------------------------------ extractIPFSHash

  /** `extractIPFSHash`: the content id inside a stored IPFS reference. A
      bare id (starting with "Qm") and anything unrecognised are kept; a
      gateway path gives the text after "/ipfs/"; a gateway URL without
      that path gives its last '/' segment; '' stays ''. */
  function ExtractIPFSHash(s: string): string {
    if s == "" then ""
    else if StartsWith(s, "Qm") then s
    else if Includes(s, IpfsPath) then
      SplitAtFirst(s, IpfsPath);
      Split(s, IpfsPath)[1]
    else if Includes(s, GatewayName) then LastSegment(s)
    else s
  }

  /** The cases in their order of precedence. */
  lemma ExtractCases(s: string)
    ensures var r := ExtractIPFSHash(s);
      && (s == "" ==> r == "")
      && (StartsWith(s, "Qm") ==> r == s)
      && ((s != "" && !StartsWith(s, "Qm") && !Includes(s, IpfsPath) && Includes(s, GatewayName))
            ==> r == LastSegment(s))
      && ((s != "" && !StartsWith(s, "Qm") && !Includes(s, IpfsPath) && !Includes(s, GatewayName))
            ==> r == s)
  {
  }

  /** For a reference with a "/ipfs/" path the result is the text between
      the first "/ipfs/" and the next one, or the end. */
  lemma ExtractFromPath(s: string)
    requires !StartsWith(s, "Qm") && Includes(s, IpfsPath)
    ensures var i, r := IndexOf(s, IpfsPath), ExtractIPFSHash(s);
      && 0 <= i && (forall j: nat :: j < i ==> !OccursAt(s, IpfsPath, j))
      && OccursAt(s, r, i + |IpfsPath|)
      && !Includes(r, IpfsPath)
      && (i + |IpfsPath| + |r| == |s| || OccursAt(s, IpfsPath, i + |IpfsPath| + |r|))
    ensures var i, r := IndexOf(s, IpfsPath), ExtractIPFSHash(s);
      forall j: nat :: i + |IpfsPath| <= j < i + |IpfsPath| + |r| ==> !OccursAt(s, IpfsPath, j)
  {
    var i := IndexOf(s, IpfsPath);
    SplitAtFirst(s, IpfsPath);
    FirstPieceAt(s, IpfsPath, i + |IpfsPath|);
    assert ExtractIPFSHash(s) == Split(s[i + |IpfsPath|..], IpfsPath)[0];
  }

  /** For a gateway URL without "/ipfs/" the result is its last '/'
      segment: a suffix without '/', preceded by '/' when shorter. */
  lemma ExtractFromGatewayUrl(s: string)
    requires !StartsWith(s, "Qm") && !Includes(s, IpfsPath) && Includes(s, GatewayName)
    ensures var r := ExtractIPFSHash(s);
      !Includes(r, "/") && |r| <= |s| && s[|s| - |r|..] == r && (|r| < |s| ==> s[|s| - |r| - 1] == '/')
  {
    ExtractCases(s);
    LastSegmentFacts(s);
    NoSlashNotIncluded(LastSegment(s));
  }

  /** The only '/' characters of the gateway host are the two after the
      scheme. */
  lemma HostSlashes()
    ensures |GatewayHost| == 28 && GatewayHost[7] == '/' && GatewayHost[8] == 'g'
    ensures forall j :: 0 <= j < 28 && GatewayHost[j] == '/' ==> j == 6 || j == 7
  {
    assert GatewayHost == "https:" + "//" + "gateway.pinata.cloud";
    assert '/' !in "https:";
    assert '/' !in "gateway.pinata.cloud";
  }

  /** No "/ipfs/" starts inside the gateway host part of a gateway URL. */
  lemma NoPathInHost(cid: string)
    ensures forall j: nat :: j < |GatewayHost| ==> !OccursAt(GatewayUrl(cid), IpfsPath, j)
  {
    var u := GatewayUrl(cid);
    HostSlashes();
    assert u[..28] == GatewayHost;
    forall j: nat | j < 28
      ensures !OccursAt(u, IpfsPath, j)
    {
      assert u[j] == GatewayHost[j];
      assert j < 27 ==> u[j + 1] == GatewayHost[j + 1];
      OccursAtChar(u, IpfsPath, j, 0);
      OccursAtChar(u, IpfsPath, j, 1);
    }
  }

  /** Round trip with the upload: the id inside the gateway URL that
      `uploadToIPFS` resolves with is the pinned id, provided the id does
      not itself contain "/ipfs/". */
  lemma ExtractUploadedUrl(cid: string)
    requires !Includes(cid, IpfsPath)
    ensures ExtractIPFSHash(GatewayUrl(cid)) == cid
  {
    var u := GatewayUrl(cid);
    assert u == GatewayHost + IpfsPath + cid;
    assert u[0] == 'h';
    assert !StartsWith(u, "Qm");
    assert OccursAt(u, IpfsPath, 28) by {
      assert u[28..34] == IpfsPath;
    }
    IncludesIff(u, IpfsPath);
    NoPathInHost(cid);
    assert IndexOf(u, IpfsPath) == 28;
    SplitAtFirst(u, IpfsPath);
    assert u[34..] == cid;
  }

  // --------------------------------------------------------- loading

  /** The record shown for the ledger's details of `contentHash`. */
  function ToArtwork(contentHash: string, d: Details): Artwork {
    var clean := ExtractIPFSHash(d.ipfsHash);
    Artwork(contentHash,
            if d.title == "" then "Untitled" else d.title,
            if d.description == "" then "No description" else d.description,
            GatewayPrefix + clean, d.owner, d.timestamp * 1000, d.contentHash, clean)
  }

  /** The fields of a fetched record: placeholders for an empty title or
      description, the picture at the gateway under the cleaned id, and
      the date in milliseconds. */
  lemma ToArtworkFields(contentHash: string, d: Details)
    ensures var a := ToArtwork(contentHash, d);
      && a.id == contentHash && a.owner == d.owner && a.contentHash == d.contentHash
      && a.title == (if d.title == "" then "Untitled" else d.title)
      && a.description == (if d.description == "" then "No description" else d.description)
      && a.ipfsHash == ExtractIPFSHash(d.ipfsHash) && a.image == GatewayUrl(a.ipfsHash)
      && StartsWith(a.image, GatewayPrefix)
      && a.timestampMs == d.timestamp * 1000
  {
  }

  /** The records for the hashes whose details could be fetched, in hash
      order; a failed fetch drops its hash. */
  function Collect(c: Contract, hashes: seq<string>): seq<Artwork>
    decreases |hashes|
  {
    if hashes == [] then []
    else
      var h := hashes[|hashes| - 1];
      var rest := Collect(c, hashes[..|hashes| - 1]);
      match c.getArtworkDetails(h)
      case Success(d) => rest + [ToArtwork(h, d)]
      case Failure(_) => rest
  }

  /** The positions of the hashes whose details could be fetched. */
  function Survivors(c: Contract, hashes: seq<string>): seq<nat>
    decreases |hashes|
  {
    if hashes == [] then []
    else
      var n := |hashes| - 1;
      var rest := Survivors(c, hashes[..n]);
      if c.getArtworkDetails(hashes[n]).Success? then rest + [n] else rest
  }

  /** The surviving positions are the positions whose fetch succeeded, in
      increasing order. */
  lemma {:induction false} SurvivorsSpec(c: Contract, hashes: seq<string>)
    ensures forall k :: 0 <= k < |Survivors(c, hashes)| ==> Survivors(c, hashes)[k] < |hashes|
    ensures forall k :: 0 <= k < |Survivors(c, hashes)| ==>
      c.getArtworkDetails(hashes[Survivors(c, hashes)[k]]).Success?
    ensures forall k, l :: 0 <= k < l < |Survivors(c, hashes)| ==> Survivors(c, hashes)[k] < Survivors(c, hashes)[l]
    ensures forall i :: 0 <= i < |hashes| && c.getArtworkDetails(hashes[i]).Success? ==> i in Survivors(c, hashes)
    decreases |hashes|
  {
    if hashes != [] {
      var n := |hashes| - 1;
      var pre := hashes[..n];
      SurvivorsSpec(c, pre);
      var rest := Survivors(c, pre);
      forall k | 0 <= k < |rest|
        ensures pre[rest[k]] == hashes[rest[k]]
      {
      }
      forall i | 0 <= i < n
        ensures pre[i] == hashes[i]
      {
      }
    }
  }

  /** `Collect` keeps exactly the fetched records, in order: its k-th
      record is the one for the k-th surviving position. */
  lemma {:induction false} CollectKeepsOrder(c: Contract, hashes: seq<string>)
    ensures var r, ix := Collect(c, hashes), Survivors(c, hashes);
      && |r| == |ix| && |r| <= |hashes|
      && (forall k :: 0 <= k < |ix| ==> ix[k] < |hashes|)
      && (forall k :: 0 <= k < |ix| ==> c.getArtworkDetails(hashes[ix[k]]).Success?)
      && forall k :: 0 <= k < |r| ==>
           r[k] == ToArtwork(hashes[ix[k]], c.getArtworkDetails(hashes[ix[k]]).value)
    decreases |hashes|
  {
    if hashes != [] {
      var n := |hashes| - 1;
      var pre := hashes[..n];
      CollectKeepsOrder(c, pre);
      SurvivorsSpec(c, hashes);
      var ix := Survivors(c, pre);
      forall k | 0 <= k < |ix|
        ensures pre[ix[k]] == hashes[ix[k]]
      {
      }
    }
  }

  /** No record survives exactly when every detail fetch failed. */
  lemma CollectEmptyIff(c: Contract, hashes: seq<string>)
    ensures Collect(c, hashes) == [] <==>
      forall i :: 0 <= i < |hashes| ==> c.getArtworkDetails(hashes[i]).Failure?
  {
    CollectKeepsOrder(c, hashes);
    SurvivorsSpec(c, hashes);
    var ix := Survivors(c, hashes);
    if Collect(c, hashes) != [] {
      assert c.getArtworkDetails(hashes[ix[0]]).Success?;
    }
  }

  /** The address of a sample picture: a photo on the image host, at the
      size the cards use. */
  function SampleImage(host: string, photo: string): string {
    "https://" + host + "/" + photo + "?w=400&h=300&fit=crop"
  }

  /** The address of a sample owner. */
  function SampleOwner(head: string, tail: string): string {
    head + "d35Cc6634C0532925a3b8D1234567890" + tail
  }

  /** The sample records shown when the ledger has nothing or cannot be
      reached; their dates are midnight UTC of 2024-01-15, 01-18, 01-25
      and 01-20. */
  function MockArtworks(): seq<Artwork> {
    [ Artwork("0x1", "Digital Sunset", "A beautiful AI-generated sunset landscape",
              SampleImage("images.unsplash.com", "photo-1506905925346-21bda4d32df4"),
              SampleOwner("0x742", "abc"), 1705276800000, "0x123", "QmExample1"),
      Artwork("0x2", "Abstract Dreams", "Colorful abstract digital painting",
              SampleImage("images.unsplash.com", "photo-1541961017774-22349e4a1262"),
              SampleOwner("0x892", "def"), 1705536000000, "0x456", "QmExample2"),
      Artwork("0x3", "Cyber City", "Futuristic cityscape with neon lights",
              SampleImage("images.unsplash.com", "photo-1601042879364-f3947d3f9c16"),
              SampleOwner("0x342", "ghi"), 1706140800000, "0x789", "QmExample3"),
      Artwork("0x4", "Neural Networks", "Digital visualization of artificial intelligence and neural connections",
              SampleImage("plus.unsplash.com", "premium_photo-1683121710572-7723bd2e235d"),
              SampleOwner("0x342", "jkl"), 1705708800000, "0x790", "QmExample4") ]
  }

  /** Four sample records with distinct ids, not in date order. */
  lemma MockArtworksShape()
    ensures |MockArtworks()| == 4
    ensures forall k, l :: 0 <= k < l < 4 ==> MockArtworks()[k].id != MockArtworks()[l].id
    ensures MockArtworks()[2].timestampMs > MockArtworks()[3].timestampMs
  {
  }

  /** What a fetch leaves in `artworks` and `error`. */
  datatype Loaded = Loaded(artworks: seq<Artwork>, error: Option<string>)

  /** The catch block: the samples, and an error naming the message. */
  function Fallback(e: Thrown): Loaded {
    Loaded(MockArtworks(), Some("Failed to load artworks: " + MessageText(e)))
  }

  /** `fetchAllArtworks`, for the configured address and the node behind
      the read-only instance. */
  function FetchOutcome(contractAddress: string, node: Contract): Loaded {
    match GetReadOnlyContract(contractAddress, node)
    case Failure(e) => Fallback(e)
    case Success(c) =>
      match c.getAllArtworks
      case Failure(e) => Fallback(e)
      case Success(hashes) =>
        if |hashes| == 0 then Loaded(MockArtworks(), None)
        else Loaded(Collect(c, hashes), None)
  }

  /** The samples appear with no error for an empty ledger and with an
      error when the ledger cannot be read; otherwise the fetched records
      appear, and the list is empty only when every detail fetch failed. */
  lemma FetchOutcomeCases(contractAddress: string, node: Contract)
    ensures var o := FetchOutcome(contractAddress, node);
      && (contractAddress == "" ==>
            o == Loaded(MockArtworks(), Some("Failed to load artworks: " + ReadOnlyAddressMessage)))
      && (contractAddress != "" && node.getAllArtworks.Failure? ==> o == Fallback(node.getAllArtworks.error))
      && (contractAddress != "" && node.getAllArtworks == Success([]) ==> o == Loaded(MockArtworks(), None))
      && (o.artworks == [] <==>
            contractAddress != "" && node.getAllArtworks.Success? && |node.getAllArtworks.value| > 0
            && forall i :: 0 <= i < |node.getAllArtworks.value| ==>
                 node.getArtworkDetails(node.getAllArtworks.value[i]).Failure?)
  {
    MockArtworksShape();
    if contractAddress != "" && node.getAllArtworks.Success? {
      CollectEmptyIff(node, node.getAllArtworks.value);
    }
  }

  // ------------------------------------------------------ filter and sort

  /** The search test: the lower-cased title or description contains the
      lower-cased term. */
  predicate Matches(a: Artwork, term: string) {
    Includes(ToLower(a.title), ToLower(term)) || Includes(ToLower(a.description), ToLower(term))
  }

  /** `artworks.filter(...)` with the search test. */
  function FilterArtworks(s: seq<Artwork>, term: string): seq<Artwork>
    decreases |s|
  {
    if s == [] then []
    else
      var rest := FilterArtworks(s[1..], term);
      if Matches(s[0], term) then [s[0]] + rest else rest
  }

  /** The filter keeps exactly the matching records, each as often as it
      occurs. */
  lemma {:induction false} FilterArtworksSpec(s: seq<Artwork>, term: string)
    ensures |FilterArtworks(s, term)| <= |s|
    ensures forall a :: a in FilterArtworks(s, term) <==> a in s && Matches(a, term)
    ensures forall a :: multiset(FilterArtworks(s, term))[a] == if Matches(a, term) then multiset(s)[a] else 0
    decreases |s|
  {
    if s != [] {
      FilterArtworksSpec(s[1..], term);
      assert s == [s[0]] + s[1..];
    }
  }

  /** An empty search term keeps every record, in order. */
  lemma {:induction false} EmptyTermKeepsAll(s: seq<Artwork>)
    ensures FilterArtworks(s, "") == s
    decreases |s|
  {
    if s != [] {
      assert ToLower("") == "";
      assert OccursAt(ToLower(s[0].title), "", 0);
      IncludesIff(ToLower(s[0].title), "");
      EmptyTermKeepsAll(s[1..]);
    }
  }

  /** The order the sort selection asks for. */
  datatype SortOrder = Newest | Oldest | Unsorted

  function ParseSortBy(sortBy: string): SortOrder {
    if sortBy == "newest" then Newest else if sortBy == "oldest" then Oldest else Unsorted
  }

  /** Whether a must come before b under `order` (the comparator is
      negative). */
  predicate Before(a: Artwork, b: Artwork, order: SortOrder) {
    match order
    case Newest => a.timestampMs > b.timestampMs
    case Oldest => a.timestampMs < b.timestampMs
    case Unsorted => false
  }

  /** In order: no record should come before one ahead of it. */
  predicate SortedBy(s: seq<Artwork>, order: SortOrder) {
    forall i, j :: 0 <= i < j < |s| ==> !Before(s[j], s[i], order)
  }

  /** No record of s should come before b. */
  predicate NoneBefore(s: seq<Artwork>, b: Artwork, order: SortOrder) {
    forall k :: 0 <= k < |s| ==> !Before(s[k], b, order)
  }

  /** Inserting x into an ordered list, after every record it need not
      precede. */
  function Insert(x: Artwork, s: seq<Artwork>, order: SortOrder): (r: seq<Artwork>)
    ensures multiset(r) == multiset(s) + multiset{x}
    ensures |r| == |s| + 1
    decreases |s|
  {
    if s == [] || Before(x, s[0], order) then [x] + s
    else
      assert s == [s[0]] + s[1..];
      [s[0]] + Insert(x, s[1..], order)
  }

  /** An ordered list stays ordered behind a head no record of it should
      precede. */
  lemma ConsSorted(x: Artwork, s: seq<Artwork>, order: SortOrder)
    requires SortedBy(s, order) && NoneBefore(s, x, order)
    ensures SortedBy([x] + s, order)
  {
    var r := [x] + s;
    forall i, j | 0 <= i < j < |r|
      ensures !Before(r[j], r[i], order)
    {
      assert r[j] == s[j - 1];
      if i > 0 {
        assert r[i] == s[i - 1];
      }
    }
  }

  /** The tail of an ordered list is ordered. */
  lemma TailSorted(s: seq<Artwork>, order: SortOrder)
    requires SortedBy(s, order) && s != []
    ensures SortedBy(s[1..], order)
  {
    forall i, j | 0 <= i < j < |s[1..]|
      ensures !Before(s[1..][j], s[1..][i], order)
    {
      assert s[1..][j] == s[j + 1] && s[1..][i] == s[i + 1];
    }
  }

  /** Inserting a record that need not precede b into a list none of
      whose records need precede b gives such a list again. */
  lemma {:induction false} InsertKeepsBound(x: Artwork, s: seq<Artwork>, b: Artwork, order: SortOrder)
    requires NoneBefore(s, b, order) && !Before(x, b, order)
    ensures NoneBefore(Insert(x, s, order), b, order)
    decreases |s|
  {
    if s != [] && !Before(x, s[0], order) {
      assert NoneBefore(s[1..], b, order) by {
        forall k | 0 <= k < |s[1..]|
          ensures !Before(s[1..][k], b, order)
        {
          assert s[1..][k] == s[k + 1];
        }
      }
      InsertKeepsBound(x, s[1..], b, order);
      var t := Insert(x, s[1..], order);
      forall k | 0 <= k < |[s[0]] + t|
        ensures !Before(([s[0]] + t)[k], b, order)
      {
        if k > 0 {
          assert ([s[0]] + t)[k] == t[k - 1];
        }
      }
    } else {
      var r := [x] + s;
      forall k | 0 <= k < |r|
        ensures !Before(r[k], b, order)
      {
        if k > 0 {
          assert r[k] == s[k - 1];
        }
      }
    }
  }

  /** The comparator compares timestamps, so "need not precede" is
      transitive. */
  lemma NotBeforeTransitive(a: Artwork, b: Artwork, c: Artwork, order: SortOrder)
    requires !Before(b, a, order) && !Before(c, b, order)
    ensures !Before(c, a, order)
  {
  }

  /** Inserting into an ordered list keeps it ordered. */
  lemma {:induction false} InsertSorted(x: Artwork, s: seq<Artwork>, order: SortOrder)
    requires SortedBy(s, order)
    ensures SortedBy(Insert(x, s, order), order)
    decreases |s|
  {
    if s == [] || Before(x, s[0], order) {
      forall k | 0 <= k < |s|
        ensures !Before(s[k], x, order)
      {
        if k > 0 {
          assert !Before(s[k], s[0], order);
        }
      }
      ConsSorted(x, s, order);
    } else {
      TailSorted(s, order);
      InsertSorted(x, s[1..], order);
      forall k | 0 <= k < |s[1..]|
        ensures !Before(s[1..][k], s[0], order)
      {
        assert s[1..][k] == s[k + 1];
      }
      InsertKeepsBound(x, s[1..], s[0], order);
      ConsSorted(s[0], Insert(x, s[1..], order), order);
    }
  }

  /** The sort: a stable insertion sort under `order`. */
  function SortArtworks(s: seq<Artwork>, order: SortOrder): seq<Artwork>
    decreases |s|
  {
    if s == [] then [] else Insert(s[|s| - 1], SortArtworks(s[..|s| - 1], order), order)
  }

  /** The sort gives back the same records. */
  lemma {:induction false} SortPermutes(s: seq<Artwork>, order: SortOrder)
    ensures multiset(SortArtworks(s, order)) == multiset(s)
    decreases |s|
  {
    if s != [] {
      var n := |s| - 1;
      SortPermutes(s[..n], order);
      assert s == s[..n] + [s[n]];
    }
  }

  /** The sort puts the records in order. */
  lemma {:induction false} SortSorts(s: seq<Artwork>, order: SortOrder)
    ensures SortedBy(SortArtworks(s, order), order)
    decreases |s|
  {
    if s != [] {
      var n := |s| - 1;
      SortSorts(s[..n], order);
      InsertSorted(s[n], SortArtworks(s[..n], order), order);
    }
  }

  /** Under no order, inserting appends. */
  lemma {:induction false} UnsortedInsertAppends(x: Artwork, s: seq<Artwork>)
    ensures Insert(x, s, Unsorted) == s + [x]
    decreases |s|
  {
    if s != [] {
      UnsortedInsertAppends(x, s[1..]);
      assert s == [s[0]] + s[1..];
    }
  }

  /** With no known order (the comparator is always 0) the sort changes
      nothing. */
  lemma {:induction false} UnsortedIsIdentity(s: seq<Artwork>)
    ensures SortArtworks(s, Unsorted) == s
    decreases |s|
  {
    if s != [] {
      var n := |s| - 1;
      UnsortedIsIdentity(s[..n]);
      UnsortedInsertAppends(s[n], s[..n]);
      assert s == s[..n] + [s[n]];
    }
  }

  /** x as a list of the records dated t among it. */
  function Dated(x: Artwork, t: int): seq<Artwork> {
    if x.timestampMs == t then [x] else []
  }

  /** The records of s dated t, in their order in s. */
  function SameDate(s: seq<Artwork>, t: int): seq<Artwork>
    decreases |s|
  {
    if s == [] then [] else Dated(s[0], t) + SameDate(s[1..], t)
  }

  /** Picking the records of one date from a list with a head. */
  lemma SameDateCons(y: Artwork, s: seq<Artwork>, t: int)
    ensures SameDate([y] + s, t) == Dated(y, t) + SameDate(s, t)
  {
    assert ([y] + s)[1..] == s;
  }

  /** Picking the records of one date distributes over concatenation. */
  lemma {:induction false} SameDateAppend(a: seq<Artwork>, b: seq<Artwork>, t: int)
    ensures SameDate(a + b, t) == SameDate(a, t) + SameDate(b, t)
    decreases |a|
  {
    if a == [] {
      assert a + b == b;
    } else {
      assert (a + b)[0] == a[0] && (a + b)[1..] == a[1..] + b;
      SameDateAppend(a[1..], b, t);
    }
  }

  /** A list with no record dated t has none to pick. */
  lemma {:induction false} SameDateNone(s: seq<Artwork>, t: int)
    requires forall k :: 0 <= k < |s| ==> s[k].timestampMs != t
    ensures SameDate(s, t) == []
    decreases |s|
  {
    if s != [] {
      SameDateNone(s[1..], t);
    }
  }

  /** A record that must precede the head of an ordered list shares its
      date with none of it. */
  lemma BeforeHeadNoneSameDate(x: Artwork, s: seq<Artwork>, order: SortOrder)
    requires SortedBy(s, order) && s != [] && Before(x, s[0], order)
    ensures forall k :: 0 <= k < |s| ==> s[k].timestampMs != x.timestampMs
  {
    forall k | 0 <= k < |s|
      ensures s[k].timestampMs != x.timestampMs
    {
      if k > 0 {
        assert !Before(s[k], s[0], order);
      }
    }
  }

  /** Inserting in front of an ordered list adds x after the (no) records
      of its date. */
  lemma InsertFrontStable(x: Artwork, s: seq<Artwork>, order: SortOrder, t: int)
    requires SortedBy(s, order) && s != [] && Before(x, s[0], order)
    ensures SameDate([x] + s, t) == SameDate(s, t) + Dated(x, t)
  {
    SameDateCons(x, s, t);
    BeforeHeadNoneSameDate(x, s, order);
    if x.timestampMs == t {
      SameDateNone(s, t);
    }
  }

  /** Passing the head keeps it in front of the records of the rest. */
  lemma InsertPastHeadStable(x: Artwork, y: Artwork, s: seq<Artwork>, rest: seq<Artwork>, t: int)
    requires SameDate(rest, t) == SameDate(s, t) + Dated(x, t)
    ensures SameDate([y] + rest, t) == SameDate([y] + s, t) + Dated(x, t)
  {
    SameDateCons(y, rest, t);
    SameDateCons(y, s, t);
  }

  /** Inserting x into an ordered list puts it after every record of its
      own date. */
  lemma {:induction false} InsertStable(x: Artwork, s: seq<Artwork>, order: SortOrder, t: int)
    requires SortedBy(s, order)
    ensures SameDate(Insert(x, s, order), t) == SameDate(s, t) + Dated(x, t)
    decreases |s|
  {
    if s == [] {
      SameDateCons(x, s, t);
    } else if Before(x, s[0], order) {
      InsertFrontStable(x, s, order, t);
    } else {
      TailSorted(s, order);
      InsertStable(x, s[1..], order, t);
      InsertPastHeadStable(x, s[0], s[1..], Insert(x, s[1..], order), t);
      assert s == [s[0]] + s[1..];
    }
  }

  /** Picking the records of one date from a list with a last element. */
  lemma SameDateLast(s: seq<Artwork>, t: int)
    requires s != []
    ensures SameDate(s, t) == SameDate(s[..|s| - 1], t) + Dated(s[|s| - 1], t)
  {
    var n := |s| - 1;
    SameDateAppend(s[..n], [s[n]], t);
    SameDateCons(s[n], [], t);
    assert [s[n]] + [] == [s[n]];
    assert s == s[..n] + [s[n]];
  }

  /** Inserting into the sorted list of init puts x after the records of
      its date. */
  lemma InsertIntoSortedStable(x: Artwork, init: seq<Artwork>, order: SortOrder, t: int)
    ensures SameDate(Insert(x, SortArtworks(init, order), order), t)
         == SameDate(SortArtworks(init, order), t) + Dated(x, t)
  {
    SortSorts(init, order);
    InsertStable(x, SortArtworks(init, order), order, t);
  }

  /** The sort is stable: the records of each date keep their order. */
  lemma {:induction false} SortStable(s: seq<Artwork>, order: SortOrder, t: int)
    ensures SameDate(SortArtworks(s, order), t) == SameDate(s, t)
    decreases |s|
  {
    if s != [] {
      var n := |s| - 1;
      SortStable(s[..n], order, t);
      InsertIntoSortedStable(s[n], s[..n], order, t);
      SameDateLast(s, t);
    }
  }

  /** Stability for every date at once. */
  lemma SortStableAll(s: seq<Artwork>, order: SortOrder)
    ensures forall t :: SameDate(SortArtworks(s, order), t) == SameDate(s, t)
  {
    forall t
      ensures SameDate(SortArtworks(s, order), t) == SameDate(s, t)
    {
      SortStable(s, order, t);
    }
  }

  /** What the page lists for a search term and sort selection. */
  function Displayed(artworks: seq<Artwork>, searchTerm: string, sortBy: string): seq<Artwork> {
    SortArtworks(FilterArtworks(artworks, searchTerm), ParseSortBy(sortBy))
  }

  /** The listed records are the matching ones, each as often as it was
      loaded; "newest" lists them by non-increasing and "oldest" by
      non-decreasing date, records of the same date in the order the
      filter left them; any other choice keeps that order. */
  lemma DisplayedSpec(artworks: seq<Artwork>, searchTerm: string, sortBy: string)
    ensures multiset(Displayed(artworks, searchTerm, sortBy)) == multiset(FilterArtworks(artworks, searchTerm))
    ensures forall a :: a in Displayed(artworks, searchTerm, sortBy) <==> a in artworks && Matches(a, searchTerm)
    ensures sortBy == "newest" ==>
      forall i, j :: 0 <= i < j < |Displayed(artworks, searchTerm, sortBy)| ==>
        Displayed(artworks, searchTerm, sortBy)[i].timestampMs >= Displayed(artworks, searchTerm, sortBy)[j].timestampMs
    ensures sortBy == "oldest" ==>
      forall i, j :: 0 <= i < j < |Displayed(artworks, searchTerm, sortBy)| ==>
        Displayed(artworks, searchTerm, sortBy)[i].timestampMs <= Displayed(artworks, searchTerm, sortBy)[j].timestampMs
    ensures sortBy != "newest" && sortBy != "oldest" ==>
      Displayed(artworks, searchTerm, sortBy) == FilterArtworks(artworks, searchTerm)
    ensures forall t :: SameDate(Displayed(artworks, searchTerm, sortBy), t) == SameDate(FilterArtworks(artworks, searchTerm), t)
  {
    var f := FilterArtworks(artworks, searchTerm);
    var order := ParseSortBy(sortBy);
    var r := SortArtworks(f, order);
    FilterArtworksSpec(artworks, searchTerm);
    SortPermutes(f, order);
    SortSorts(f, order);
    if order == Unsorted {
      UnsortedIsIdentity(f);
    }
    SortStableAll(f, order);
    forall a
      ensures a in r <==> a in f
    {
      assert a in r <==> a in multiset(r);
      assert a in f <==> a in multiset(f);
    }
  }

  // ------------------------------------------------------ truncateAddress

  /** `truncateAddress` in the gallery: 'Unknown' for a missing or empty
      owner, short addresses as they are, otherwise the first 8
      characters, "...", and the last 6. */
  function TruncateAddress(addr: Option<string>): (r: string)
    ensures !Truthy(addr) ==> r == "Unknown"
    ensures Truthy(addr) && |addr.value| < 10 ==> r == addr.value
    ensures Truthy(addr) && |addr.value| >= 10 ==>
      |r| == 17 && r[..8] == addr.value[..8] && r[8..11] == "..." && r[11..] == addr.value[|addr.value| - 6..]
  {
    if !Truthy(addr) then "Unknown"
    else if |addr.value| < 10 then addr.value
    else
      SliceHead(addr.value, 8);
      SliceTail(addr.value, 6);
      Slice(addr.value, 0, 8) + "..." + SliceFrom(addr.value, -6)
  }

  /** The detail fetches of `fetchAllArtworks`, one after another: the
      records of the hashes whose fetch succeeded, in order. */
  method FetchDetails(c: Contract, hashes: seq<string>) returns (valid: seq<Artwork>)
    ensures valid == Collect(c, hashes)
  {
    valid := [];
    var i := 0;
    while i < |hashes|
      invariant 0 <= i <= |hashes|
      invariant valid == Collect(c, hashes[..i])
    {
      var details := c.getArtworkDetails(hashes[i]);
      assert hashes[..i + 1][..i] == hashes[..i];
      if details.Success? {
        valid := valid + [ToArtwork(hashes[i], details.value)];
      }
      i := i + 1;
    }
    assert hashes[..i] == hashes;
  }

  // ------------------------------------------------------ the page

  /** The page's state. */
  class GalleryPage {
    var artworks: seq<Artwork>
    var loading: bool
    var error: Option<string>

    constructor ()
      ensures artworks == [] && loading && error == None
    {
      artworks := [];
      loading := true;
      error := None;
    }

    /** `fetchAllArtworks`. The detail fetches run one after another here;
        a failed one drops its hash. */
    method FetchAllArtworks(contractAddress: string, node: Contract)
      modifies this
      ensures artworks == FetchOutcome(contractAddress, node).artworks
      ensures error == FetchOutcome(contractAddress, node).error
      ensures !loading
    {
      loading := true;
      error := None;
      var contract := GetReadOnlyContract(contractAddress, node);
      if contract.Failure? {
        error := Some("Failed to load artworks: " + MessageText(contract.error));
        artworks := MockArtworks();
        loading := false;
        return;
      }
      var c := contract.value;
      var all := c.getAllArtworks;
      if all.Failure? {
        error := Some("Failed to load artworks: " + MessageText(all.error));
        artworks := MockArtworks();
        loading := false;
        return;
      }
      var hashes := all.value;
      if |hashes| == 0 {
        artworks := MockArtworks();
        loading := false;
        return;
      }

      var valid := FetchDetails(c, hashes);
      artworks := valid;
      loading := false;
    }
  }
}
