/** The two remote services the pages call, as oracles: the ledger contract
    (contract.js) and the pinning service behind `uploadToIPFS` (ipfs.js).
    Each call either resolves with a value or rejects with a thrown error;
    which one is up to the oracle. */
module Ledger {
  import opened Wrappers
  import opened Js
  import opened Files

  /** The owner `verifyArtwork` reports for a hash nobody registered. */
  const ZeroAddress: string := "0x0000000000000000000000000000000000000000"

  /** The tuple `verifyArtwork(contentHash)` resolves with. */
  datatype VerifyReply = VerifyReply(owner: string, timestamp: nat, title: string)

  /** The struct `getArtworkDetails(contentHash)` resolves with; the
      timestamp is in seconds. */
  datatype Details = Details(
    owner: string, ipfsHash: string, contentHash: string,
    timestamp: nat, title: string, description: string)

  /** A submitted transaction; `wait` is what `tx.wait()` settles to. */
  datatype Tx = Tx(wait: Result<(), Thrown>)

  /** A contract instance: how each of its calls settles. */
  datatype Contract = Contract(
    verifyArtwork: string -> Result<VerifyReply, Thrown>,
    registerArtwork: (string, string, string, string) -> Result<Tx, Thrown>,
    getArtworkDetails: string -> Result<Details, Thrown>,
    getUserArtworks: string -> Result<seq<string>, Thrown>,
    getAllArtworks: Result<seq<string>, Thrown>)

  const ReadOnlyAddressMessage: string :=
    "Contract address not configured. Please set VITE_CONTRACT_ADDRESS in your environment variables."

  /** `getReadOnlyContract()`: throws when the contract address is not
      configured ("" stands for an unset variable), and otherwise gives the
      instance bound to the read-only node. */
  function GetReadOnlyContract(contractAddress: string, node: Contract): (r: Result<Contract, Thrown>)
    ensures r.Failure? <==> contractAddress == ""
    ensures r.Failure? ==> r.error == NewError(ReadOnlyAddressMessage)
    ensures r.Success? ==> r.value == node
  {
    if contractAddress == "" then Failure(NewError(ReadOnlyAddressMessage)) else Success(node)
  }

  // ------------------------------------------------------------- ipfs.js

  /** The pinning service's public gateway, and the path prefix under it
      that serves pinned content by id. */
  const GatewayHost: string := "https://gateway.pinata.cloud"

  const GatewayPrefix: string := GatewayHost + "/ipfs/"

  /** The gateway URL `uploadToIPFS` resolves with for a pinned content id. */
  function GatewayUrl(cid: string): (r: string)
    ensures StartsWith(r, GatewayPrefix) && r[|GatewayPrefix|..] == cid
  {
    GatewayPrefix + cid
  }

  /** How the pinning request settles: the service's `IpfsHash`, a
      response whose status is not ok, or a rejected request. */
  datatype PinResponse = Pinned(ipfsHash: string) | HttpError(statusText: string) | RequestFailed(error: Thrown)

  const JwtMissingMessage: string :=
    "Pinata JWT not configured. Please set VITE_PINATA_JWT in your environment variables."

  /** `uploadToIPFS(file)`: without an access token it throws before any
      request; otherwise it resolves with the gateway URL of the pinned
      content, or throws for a non-ok status or a failed request. */
  function UploadToIPFS(jwt: string, response: PinResponse): (r: Result<string, Thrown>)
    ensures r.Success? <==> jwt != "" && response.Pinned?
    ensures r.Success? ==> r.value == GatewayUrl(response.ipfsHash)
    ensures jwt == "" ==> r == Failure(NewError(JwtMissingMessage))
    ensures jwt != "" && response.HttpError? ==>
      r == Failure(NewError("IPFS upload failed: " + response.statusText))
  {
    if jwt == "" then Failure(NewError(JwtMissingMessage))
    else match response
      case Pinned(cid) => Success(GatewayUrl(cid))
      case HttpError(statusText) => Failure(NewError("IPFS upload failed: " + statusText))
      case RequestFailed(e) => Failure(e)
  }

  // ------------------------------------------- a ledger that keeps records

  /** `base` with its lookups and registrations answered from a table of
      records, as the ledger is expected to answer them: an unknown hash
      has the zero owner, and registering a known hash reverts. */
  function RecordsContract(base: Contract, records: map<string, Details>): Contract {
    base.(
      verifyArtwork := h =>
        if h in records then Success(VerifyReply(records[h].owner, records[h].timestamp, records[h].title))
        else Success(VerifyReply(ZeroAddress, 0, "")),
      registerArtwork := (ipfs, h, t, d) =>
        if h in records then Failure(NewError("execution reverted: Artwork already registered"))
        else Success(Tx(Success(()))))
  }

  /** The table after `registerArtwork(ipfs, h, t, d)` by `sender` at time `now`. */
  function Commit(records: map<string, Details>, sender: string, now: nat,
                  ipfs: string, h: string, t: string, d: string): (r: map<string, Details>)
    ensures h in r && r[h].owner == sender
  {
    records[h := Details(sender, ipfs, h, now, t, d)]
  }
}
