/** The Dashboard page (Dashboard.jsx): loading the connected account's
    records, the shortened hash display, the gateway link built from a
    stored IPFS reference, and the "First Registration" figure. */
module Dashboard {
  import opened Wrappers
  import opened Js
  import opened Ledger
  import Gallery

  /** A record as the dashboard keeps it; `timestampMs` is milliseconds
      since the epoch. */
  datatype UserArtwork = UserArtwork(
    contentHash: string, owner: string, ipfsHash: string,
    timestampMs: int, title: string, description: string)

  /** The record kept for the ledger's details of `contentHash`. */
  function ToUserArtwork(contentHash: string, d: Details): UserArtwork {
    UserArtwork(contentHash, d.owner, d.ipfsHash, d.timestamp * 1000, d.title, d.description)
  }

  /** The details of every hash, or None as soon as one fetch fails: the
      `Promise.all` rejects and nothing is kept. */
  function FetchAll(c: Contract, hashes: seq<string>): Option<seq<UserArtwork>>
    decreases |hashes|
  {
    if hashes == [] then Some([])
    else
      var n := |hashes| - 1;
      match FetchAll(c, hashes[..n])
      case None => None
      case Some(rest) =>
        match c.getArtworkDetails(hashes[n])
        case Failure(_) => None
        case Success(d) => Some(rest + [ToUserArtwork(hashes[n], d)])
  }

  /** All or nothing: the fetch succeeds exactly when every detail fetch
      does, and then holds one record per hash, in hash order. */
  lemma {:induction false} FetchAllSpec(c: Contract, hashes: seq<string>)
    ensures FetchAll(c, hashes).Some? <==>
      forall i :: 0 <= i < |hashes| ==> c.getArtworkDetails(hashes[i]).Success?
    ensures FetchAll(c, hashes).Some? ==>
      var r := FetchAll(c, hashes).value;
      |r| == |hashes| &&
      forall i :: 0 <= i < |hashes| ==>
        r[i] == ToUserArtwork(hashes[i], c.getArtworkDetails(hashes[i]).value)
        && r[i].contentHash == hashes[i]
        && r[i].timestampMs == c.getArtworkDetails(hashes[i]).value.timestamp * 1000
    decreases |hashes|
  {
    if hashes != [] {
      var n := |hashes| - 1;
      FetchAllSpec(c, hashes[..n]);
      assert forall i :: 0 <= i < n ==> hashes[..n][i] == hashes[i];
    }
  }

  /** What a load ends with: the new list, or None when it failed. */
  function LoadResult(c: Contract, account: string): Option<seq<UserArtwork>> {
    match c.getUserArtworks(account)
    case Failure(_) => None
    case Success(hashes) => FetchAll(c, hashes)
  }

  /** `truncateHash`: the first 10 characters, "...", and the last 8. */
  function TruncateHash(hash: string): (r: string)
    ensures r == hash[..Min(10, |hash|)] + "..." + hash[|hash| - Min(8, |hash|)..]
  {
    SliceHead(hash, 10);
    SliceTail(hash, 8);
    Slice(hash, 0, 10) + "..." + SliceFrom(hash, -8)
  }

  /** A hash of at least 10 characters shows as 21 characters keeping its
      first 10 and last 8. */
  lemma TruncateHashShape(hash: string)
    requires |hash| >= 10
    ensures var r := TruncateHash(hash);
      |r| == 21 && r[..10] == hash[..10] && r[10..13] == "..." && r[13..] == hash[|hash| - 8..]
  {
  }

  /** The image source and "View on IPFS" link: the gateway prefix and the
      last '/' segment of the stored reference. */
  function ArtworkUrl(ipfsHash: string): (r: string)
    ensures StartsWith(r, GatewayPrefix)
    ensures var cid := r[|GatewayPrefix|..];
      !Includes(cid, "/") && |cid| <= |ipfsHash| && ipfsHash[|ipfsHash| - |cid|..] == cid
      && (|cid| < |ipfsHash| ==> ipfsHash[|ipfsHash| - |cid| - 1] == '/')
  {
    LastSegmentFacts(ipfsHash);
    NoSlashNotIncluded(LastSegment(ipfsHash));
    GatewayUrl(LastSegment(ipfsHash))
  }

  /** The last segment of a gateway URL is the id it was built from, for an
      id without '/'. */
  lemma {:induction false} LastSegmentOfGatewayUrl(cid: string)
    requires !Includes(cid, "/")
    ensures LastSegment(GatewayUrl(cid)) == cid
  {
    var u := GatewayUrl(cid);
    var r := LastSegment(u);
    LastSegmentSuffix(u);
    LastSegmentBoundary(u);
    var n := |GatewayPrefix|;
    assert u[n - 1] == '/';
    assert u[n..] == cid;
    if |r| > |cid| {
      assert r[|r| - |cid| - 1] == u[n - 1];
      LastSegmentNoSlash(u);
    } else if |r| < |cid| {
      assert cid[|cid| - |r| - 1] == u[|u| - |r| - 1];
      SlashIncluded(cid, |cid| - |r| - 1);
    } else {
      assert r == u[n..];
    }
  }

  /** The dashboard links to the same place as the upload's gateway URL,
      and so to the same place as the gallery, whether the stored
      reference is that URL or the bare id. */
  lemma ArtworkUrlOfUpload(cid: string)
    requires !Includes(cid, "/")
    ensures ArtworkUrl(GatewayUrl(cid)) == GatewayUrl(cid)
    ensures ArtworkUrl(cid) == GatewayUrl(cid)
    ensures !Includes(cid, Gallery.IpfsPath) ==>
      ArtworkUrl(GatewayUrl(cid)) == Gallery.ToArtwork(cid, Details("", GatewayUrl(cid), cid, 0, "", "")).image
  {
    LastSegmentOfGatewayUrl(cid);
    LastSegmentFacts(cid);
    if |LastSegment(cid)| < |cid| {
      SlashIncluded(cid, |cid| - |LastSegment(cid)| - 1);
    }
    if !Includes(cid, Gallery.IpfsPath) {
      Gallery.ExtractUploadedUrl(cid);
    }
  }

  /** "First Registration" as the page computes it: the date of the last
      record, or None for 'No artworks'. */
  function ShownFirstRegistration(artworks: seq<UserArtwork>): Option<int> {
    if |artworks| > 0 then Some(artworks[|artworks| - 1].timestampMs) else None
  }

  /** Records in the order the ledger added them carry non-decreasing
      dates. */
  predicate InRegistrationOrder(artworks: seq<UserArtwork>) {
    forall i, j :: 0 <= i < j < |artworks| ==> artworks[i].timestampMs <= artworks[j].timestampMs
  }

  /** For records in registration order the figure shown is the latest
      date, and for two registrations at different times it is not the
      first one. */
  lemma ShownIsLatest(artworks: seq<UserArtwork>)
    requires InRegistrationOrder(artworks) && |artworks| > 0
    ensures forall i :: 0 <= i < |artworks| ==>
      artworks[i].timestampMs <= ShownFirstRegistration(artworks).value
    ensures artworks[0].timestampMs < artworks[|artworks| - 1].timestampMs ==>
      ShownFirstRegistration(artworks) != Some(artworks[0].timestampMs)
  {
  }

  /** Two registrations a day apart: the figure shows the second. */
  lemma ShownFirstRegistrationExample()
    ensures var a := UserArtwork("0x1", "0xabc", "QmA", 1705276800000, "A", "");
      var b := UserArtwork("0x2", "0xabc", "QmB", 1705363200000, "B", "");
      InRegistrationOrder([a, b]) && ShownFirstRegistration([a, b]) == Some(b.timestampMs)
      && b.timestampMs != a.timestampMs
  {
  }

  /** "First Registration" as intended: the date of the earliest record,
      the first one in registration order, or None for 'No artworks'. */
  function FirstRegistration(artworks: seq<UserArtwork>): (r: Option<int>)
    ensures r.None? <==> artworks == []
    ensures r.Some? ==> exists i :: 0 <= i < |artworks| && artworks[i].timestampMs == r.value
  {
    if |artworks| > 0 then Some(artworks[0].timestampMs) else None
  }

  /** For records in registration order the intended figure is the
      earliest date. */
  lemma FirstRegistrationIsEarliest(artworks: seq<UserArtwork>)
    requires InRegistrationOrder(artworks) && |artworks| > 0
    ensures forall i :: 0 <= i < |artworks| ==>
      FirstRegistration(artworks).value <= artworks[i].timestampMs
  {
  }

  /** After a load, the intended figure is the date of the account's first
      listed hash, and 'No artworks' when it has none. */
  lemma FirstRegistrationOfLoad(c: Contract, account: string)
    requires LoadResult(c, account).Some?
    ensures var hashes := c.getUserArtworks(account).value;
      var r := FirstRegistration(LoadResult(c, account).value);
      (hashes == [] ==> r.None?)
      && (hashes != [] ==>
            c.getArtworkDetails(hashes[0]).Success?
            && r == Some(c.getArtworkDetails(hashes[0]).value.timestamp * 1000))
  {
    FetchAllSpec(c, c.getUserArtworks(account).value);
  }

  /** The page's state. */
  class DashboardPage {
    var artworks: seq<UserArtwork>
    var isLoading: bool

    constructor ()
      ensures artworks == [] && isLoading
    {
      artworks := [];
      isLoading := true;
    }

    /** `loadUserArtworks`. Nothing happens without a contract and an
        account; otherwise a failed load keeps the old list, and
        `isLoading` ends false. The detail fetches run one after another
        here. */
    method LoadUserArtworks(contract: Option<Contract>, account: Option<string>)
      modifies this
      ensures contract.None? || !Truthy(account) ==> artworks == old(artworks) && isLoading == old(isLoading)
      ensures contract.Some? && Truthy(account) ==>
        var loaded := LoadResult(contract.value, account.value);
        !isLoading && artworks == (if loaded.Some? then loaded.value else old(artworks))
    {
      if contract.None? || !Truthy(account) {
        return;
      }
      var c := contract.value;
      isLoading := true;
      var listed := c.getUserArtworks(account.value);
      if listed.Failure? {
        isLoading := false;
        return;
      }
      var hashes := listed.value;
      var details: seq<UserArtwork> := [];
      var i := 0;
      while i < |hashes|
        invariant 0 <= i <= |hashes|
        invariant FetchAll(c, hashes[..i]) == Some(details)
      {
        var d := c.getArtworkDetails(hashes[i]);
        assert hashes[..i + 1][..i] == hashes[..i];
        if d.Failure? {
          FailureAborts(c, hashes, i + 1);
          isLoading := false;
          return;
        }
        details := details + [ToUserArtwork(hashes[i], d.value)];
        i := i + 1;
      }
      assert hashes[..i] == hashes;
      artworks := details;
      isLoading := false;
    }
  }

  /** A failed fetch in a prefix fails the whole load. */
  lemma {:induction false} FailureAborts(c: Contract, hashes: seq<string>, k: nat)
    requires k <= |hashes| && FetchAll(c, hashes[..k]).None?
    ensures FetchAll(c, hashes).None?
    decreases |hashes| - k
  {
    if k < |hashes| {
      assert hashes[..k + 1][..k] == hashes[..k];
      FailureAborts(c, hashes, k + 1);
    } else {
      assert hashes[..k] == hashes;
    }
  }
}
