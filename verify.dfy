/** The Verify page (Verify.jsx): the same file gate as registration, and
    `handleVerify`, which fingerprints the selected file, asks a read-only
    ledger instance who registered that fingerprint, and maps the answer
    to a verification result. No wallet is involved. */
module Verify {
  import opened Wrappers
  import opened Js
  import opened Files
  import opened Ledger
  import Hashing
  import Register

  /** The messages a negative result can carry; `Text` gives the wording. */
  datatype Message =
    | NoFileSelected
    | NotRegistered
    | NetworkFailure
    | ContractFailure
    | VerificationFailed
    | Refused(reason: Refusal)

  function Text(m: Message): string {
    match m
    case NoFileSelected => "Please select a file to verify"
    case NotRegistered => "This artwork is not registered in our system"
    case NetworkFailure => "Network error. Please check your connection."
    case ContractFailure => "Contract connection error. Please try again."
    case VerificationFailed => "Error verifying artwork. Please try again."
    case Refused(reason) => RefusalText(reason)
  }

  /** `verificationResult` when it is not null: `{verified: false, message}`
      or `{verified: true, owner, timestamp, title, contentHash}`, with the
      timestamp in milliseconds. */
  datatype VerificationResult =
    | NotVerified(message: Message)
    | Verified(owner: string, timestampMs: nat, title: string, contentHash: string)

  /** The external calls `handleVerify` makes. */
  datatype Call = HashFile(file: File) | VerifyArtwork(contentHash: string)

  /** The inner try/catch: what the page shows for the answer of
      `verifyArtwork(contentHash)`. A lookup that throws reads as "not
      registered", like the zero owner. */
  function LookupResult(lookup: Result<VerifyReply, Thrown>, contentHash: string): (r: VerificationResult)
    ensures r.Verified? <==> lookup.Success? && lookup.value.owner != ZeroAddress
    ensures r.NotVerified? ==> r.message == NotRegistered
    ensures r.Verified? ==>
      && r.owner == lookup.value.owner
      && r.timestampMs == lookup.value.timestamp * 1000
      && r.title == (if lookup.value.title == "" then "Untitled" else lookup.value.title)
      && r.contentHash == contentHash
  {
    match lookup
    case Failure(_) => NotVerified(NotRegistered)
    case Success(reply) =>
      if reply.owner == ZeroAddress then NotVerified(NotRegistered)
      else Verified(reply.owner, reply.timestamp * 1000,
                    if reply.title == "" then "Untitled" else reply.title, contentHash)
  }

  /** The outer catch: "network" is looked for first, then "contract"
      (both case-sensitive), else the generic message. */
  function ClassifyError(message: string): (r: Message)
    ensures Includes(message, "network") ==> r == NetworkFailure
    ensures !Includes(message, "network") && Includes(message, "contract") ==> r == ContractFailure
    ensures r == VerificationFailed <==> !Includes(message, "network") && !Includes(message, "contract")
  {
    if Includes(message, "network") then NetworkFailure
    else if Includes(message, "contract") then ContractFailure
    else VerificationFailed
  }

  /** How a run of `handleVerify` ends: the calls made, the final
      `verificationResult` (None for null) and whether the handler's
      promise rejects. */
  datatype Run = Run(calls: seq<Call>, result: Option<VerificationResult>, rejects: bool)

  /** The outer catch for an error thrown after `calls`. An error without a
      message (the FileReader's error event) makes `error.message.includes`
      throw, so the result stays null and the promise rejects. */
  function Caught(calls: seq<Call>, e: Thrown): Run {
    match e.message
    case None => Run(calls, None, true)
    case Some(m) => Run(calls, Some(NotVerified(ClassifyError(m))), false)
  }

  /** The whole handler, for the configured contract address, the node the
      read-only instance talks to, and `calculateSHA256` as `hash`. */
  function VerifyRun(file: Option<File>, contractAddress: string, node: Contract,
                     hash: File -> Result<string, Thrown>): Run
  {
    match file
    case None => Run([], Some(NotVerified(NoFileSelected)), false)
    case Some(f) =>
      match GetReadOnlyContract(contractAddress, node)
      case Failure(e) => Caught([], e)
      case Success(c) =>
        match hash(f)
        case Failure(e) => Caught([HashFile(f)], e)
        case Success(h) => Run([HashFile(f), VerifyArtwork(h)], Some(LookupResult(c.verifyArtwork(h), h)), false)
  }

  /** Without a file the handler shows the "select a file" result and makes
      no call; with one it always starts by hashing, unless the read-only
      instance cannot be built. */
  lemma NoFileNoCall(file: Option<File>, contractAddress: string, node: Contract,
                     hash: File -> Result<string, Thrown>)
    ensures var run := VerifyRun(file, contractAddress, node, hash);
      (file.None? ==> run.calls == [] && run.result == Some(NotVerified(NoFileSelected)) && !run.rejects)
      && (run.calls == [] <==> file.None? || contractAddress == "")
      && (run.calls != [] ==> run.calls[0] == HashFile(file.value))
  {
  }

  /** A verified result names the fingerprint of the selected file and the
      owner the ledger reported for it, and the ledger was asked about
      exactly that fingerprint. */
  lemma VerifiedMeansRegistered(file: Option<File>, contractAddress: string, node: Contract,
                                hash: File -> Result<string, Thrown>)
    requires var run := VerifyRun(file, contractAddress, node, hash);
      run.result.Some? && run.result.value.Verified?
    ensures file.Some? && contractAddress != "" && hash(file.value).Success?
    ensures var run := VerifyRun(file, contractAddress, node, hash);
      var h := hash(file.value).value;
      && run.result.value.contentHash == h
      && run.calls == [HashFile(file.value), VerifyArtwork(h)]
      && node.verifyArtwork(h).Success?
      && run.result.value.owner == node.verifyArtwork(h).value.owner != ZeroAddress
  {
  }

  /** The converse: once a file is selected, the address is set and the
      hash succeeds, the ledger is asked about exactly that fingerprint and
      its answer is shown; the result is verified exactly when the lookup
      reports a real owner. */
  lemma LookupShownForSelectedFile(f: File, contractAddress: string, node: Contract,
                                   hash: File -> Result<string, Thrown>)
    requires contractAddress != "" && hash(f).Success?
    ensures var run := VerifyRun(Some(f), contractAddress, node, hash);
      var h := hash(f).value;
      && run.calls == [HashFile(f), VerifyArtwork(h)]
      && run.result == Some(LookupResult(node.verifyArtwork(h), h))
      && !run.rejects
      && (run.result.value.Verified? <==>
            node.verifyArtwork(h).Success? && node.verifyArtwork(h).value.owner != ZeroAddress)
  {
  }

  /** With the SHA-256 fingerprint on both pages, a file with the same
      bytes as one whose registration reached the commit makes the verify
      page ask the ledger about exactly the fingerprint that was
      committed, and show its answer. */
  lemma VerifyAsksForCommittedHash(account: string, c: Contract, f1: File, title: string, description: string,
                                   jwt: string, pin: File -> PinResponse,
                                   f2: File, contractAddress: string, node: Contract,
                                   sha256: seq<byte> -> Hashing.Digest)
    requires f1.content == f2.content && contractAddress != ""
    requires |Register.RegisterRun(true, Some(account), Some(c), Some(f1), title, description,
                                   (g: File) => Hashing.CalculateSHA256(g, sha256), jwt, pin).calls| >= 4
    ensures var reg := Register.RegisterRun(true, Some(account), Some(c), Some(f1), title, description,
                                            (g: File) => Hashing.CalculateSHA256(g, sha256), jwt, pin);
      var ver := VerifyRun(Some(f2), contractAddress, node, (g: File) => Hashing.CalculateSHA256(g, sha256));
      && f1.content.Loaded? && reg.calls[3].RegisterArtwork?
      && reg.calls[3].contentHash == Hashing.Fingerprint(sha256(f1.content.bytes))
      && ver.calls == [HashFile(f2), VerifyArtwork(reg.calls[3].contentHash)]
      && ver.result == Some(LookupResult(node.verifyArtwork(reg.calls[3].contentHash), reg.calls[3].contentHash))
  {
    var hash := (g: File) => Hashing.CalculateSHA256(g, sha256);
    Register.CallsFollowPlan(true, Some(account), Some(c), Some(f1), title, description, hash, jwt, pin);
    Hashing.SameBytesSameFingerprint(f1, f2, sha256);
    LookupShownForSelectedFile(f2, contractAddress, node, hash);
  }

  /** A lookup that throws and a lookup that answers with the zero owner
      give the same result: the page cannot tell them apart. */
  lemma ThrownLookupLooksUnregistered(e: Thrown, timestamp: nat, title: string, contentHash: string)
    ensures LookupResult(Failure(e), contentHash)
         == LookupResult(Success(VerifyReply(ZeroAddress, timestamp, title)), contentHash)
         == NotVerified(NotRegistered)
  {
  }

  /** An unset contract address fails before any call, and its error is
      classified like any other outer failure. */
  lemma MissingAddressStopsBeforeHashing(f: File, node: Contract, hash: File -> Result<string, Thrown>)
    ensures var run := VerifyRun(Some(f), "", node, hash);
      run.calls == [] && !run.rejects
      && run.result == Some(NotVerified(ClassifyError(ReadOnlyAddressMessage)))
  {
  }

  /** A failed hash ends in the outer catch: the ledger is not asked, and
      the error is classified when it has a message; otherwise the result
      stays null and the promise rejects. */
  lemma HashFailureIsCaught(f: File, contractAddress: string, node: Contract,
                            hash: File -> Result<string, Thrown>)
    requires contractAddress != "" && hash(f).Failure?
    ensures var run := VerifyRun(Some(f), contractAddress, node, hash);
      var e := hash(f).error;
      && run.calls == [HashFile(f)]
      && (e.message.Some? ==> run.result == Some(NotVerified(ClassifyError(e.message.value))) && !run.rejects)
      && (e.message.None? ==> run.result.None? && run.rejects)
  {
  }

  /** `truncateAddress`: '' for a missing or empty address, otherwise the
      first 8 characters, "...", and the last 6. */
  function TruncateAddress(addr: Option<string>): (r: string)
    ensures !Truthy(addr) ==> r == ""
    ensures Truthy(addr) ==>
      var a := addr.value;
      r == a[..Min(8, |a|)] + "..." + a[|a| - Min(6, |a|)..]
  {
    if !Truthy(addr) then ""
    else
      SliceHead(addr.value, 8);
      SliceTail(addr.value, 6);
      Slice(addr.value, 0, 8) + "..." + SliceFrom(addr.value, -6)
  }

  /** For an address of at least 8 characters the display is 17 long and
      keeps its first 8 and last 6 characters. */
  lemma TruncateAddressShape(addr: string)
    requires |addr| >= 8
    ensures var r := TruncateAddress(Some(addr));
      |r| == 17 && r[..8] == addr[..8] && r[8..11] == "..." && r[11..] == addr[|addr| - 6..]
  {
  }

  /** The page's state. `calls` records the external calls of the last
      `handleVerify`. */
  class VerifyPage {
    var file: Option<File>
    var preview: Option<string>
    var verificationResult: Option<VerificationResult>
    var isVerifying: bool
    ghost var calls: seq<Call>

    constructor ()
      ensures file == None && preview == None && verificationResult == None && !isVerifying && calls == []
    {
      file := None;
      preview := None;
      verificationResult := None;
      isVerifying := false;
      calls := [];
    }

    /** `handleFileChange`: a refused file sets a negative result and is
        not stored; an accepted one is stored and clears the result. */
    method HandleFileChange(selected: Option<File>, objectUrl: string)
      modifies this`file, this`preview, this`verificationResult
      ensures selected.None? ==>
        file == old(file) && preview == old(preview) && verificationResult == old(verificationResult)
      ensures selected.Some? && SelectionError(selected.value).Some? ==>
        file == old(file) && preview == old(preview)
        && verificationResult == Some(NotVerified(Refused(SelectionError(selected.value).value)))
      ensures selected.Some? && SelectionError(selected.value).None? ==>
        file == selected && preview == Some(objectUrl) && verificationResult == None
    {
      if selected.Some? {
        var f := selected.value;
        if f.size > MaxFileSize {
          verificationResult := Some(NotVerified(Refused(TooLarge)));
          return;
        }
        if f.mimeType !in ValidTypes {
          verificationResult := Some(NotVerified(Refused(NotAnImage)));
          return;
        }
        file := Some(f);
        preview := Some(objectUrl);
        verificationResult := None;
      }
    }

    /** `handleVerify`. The result is null while the check runs, and
        `isVerifying` ends false on every path past the file check. */
    method HandleVerify(contractAddress: string, node: Contract, hash: File -> Result<string, Thrown>)
      returns (rejects: bool)
      modifies this`verificationResult, this`isVerifying, this`calls
      ensures var run := VerifyRun(old(file), contractAddress, node, hash);
        calls == run.calls && verificationResult == run.result && rejects == run.rejects
      ensures isVerifying == (if old(file).None? then old(isVerifying) else false)
    {
      calls := [];
      rejects := false;
      if file.None? {
        verificationResult := Some(NotVerified(NoFileSelected));
        return;
      }
      var f := file.value;

      isVerifying := true;
      verificationResult := None;
      var thrown: Option<Thrown> := None;
      var contract := GetReadOnlyContract(contractAddress, node);
      if contract.Failure? {
        thrown := Some(contract.error);
      } else {
        calls := calls + [HashFile(f)];
        var hashed := hash(f);
        if hashed.Failure? {
          thrown := Some(hashed.error);
        } else {
          var contentHash := hashed.value;
          calls := calls + [VerifyArtwork(contentHash)];
          var lookup := contract.value.verifyArtwork(contentHash);
          if lookup.Failure? {
            verificationResult := Some(NotVerified(NotRegistered));
          } else if lookup.value.owner == ZeroAddress {
            verificationResult := Some(NotVerified(NotRegistered));
          } else {
            var reply := lookup.value;
            verificationResult := Some(Verified(reply.owner, reply.timestamp * 1000,
                                                if reply.title == "" then "Untitled" else reply.title,
                                                contentHash));
          }
        }
      }

      if thrown.Some? {
        var e := thrown.value;
        if e.message.None? {
          rejects := true;
        } else {
          verificationResult := Some(NotVerified(ClassifyError(e.message.value)));
        }
      }
      isVerifying := false;
    }
  }
}
