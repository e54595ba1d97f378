/** The Register page (Register.jsx): the file picker's size and type gate,
    and `handleRegister`, which checks its preconditions, fingerprints the
    file, asks the ledger whether the fingerprint is taken, uploads the
    file, commits the record, waits for confirmation and clears the form.
    The page's React state is the class RegisterPage; the ledger, the
    pinning service and the digest are parameters. */
module Register {
  import opened Wrappers
  import opened Js
  import opened Files
  import opened Hashing
  import opened Ledger

  /** `status.type`: '', 'error', 'loading' or 'success'. */
  datatype StatusKind = Plain | Failed | Loading | Succeeded

  /** The messages the page shows; `Text` gives each one's wording. */
  datatype Message =
    | NoMessage
    | ConnectFirst | FillFields | ContractNotLoaded
    | Processing | Hashing | Checking | Uploading | Committing | Confirming
    | TakenByAnother | Registered
    | Rejected | InsufficientFunds | AlreadyRegistered | RegistrationFailed
    | Refused(reason: Refusal)

  function Text(m: Message): string {
    match m
    case NoMessage => ""
    case ConnectFirst => "Please connect your wallet first"
    case FillFields => "Please fill all required fields"
    case ContractNotLoaded => "Contract not loaded. Please refresh the page."
    case Processing => "Processing your artwork..."
    case Hashing => "Calculating file hash..."
    case Checking => "Checking if artwork is already registered..."
    case Uploading => "Uploading to IPFS..."
    case Committing => "Registering on blockchain..."
    case Confirming => "Waiting for transaction confirmation..."
    case TakenByAnother => "This artwork is already registered by another user!"
    case Registered => "Artwork successfully registered on blockchain!"
    case Rejected => "Transaction was rejected by user"
    case InsufficientFunds => "Insufficient funds for transaction"
    case AlreadyRegistered => "This artwork is already registered"
    case RegistrationFailed => "Failed to register artwork"
    case Refused(reason) => RefusalText(reason)
  }

  /** `{ type, message }`. */
  datatype Status = Status(kind: StatusKind, message: Message)

  const NoStatus: Status := Status(Plain, NoMessage)

  /** The external calls `handleRegister` makes. */
  datatype Call =
    | HashFile(file: File)
    | VerifyArtwork(contentHash: string)
    | UploadToIpfs(file: File)
    | RegisterArtwork(ipfsHash: string, contentHash: string, title: string, description: string)
    | WaitForReceipt

  /** The message the catch block shows for an error message: the first of
      the three known reasons it contains decides, in this order, and
      anything else is a generic failure. */
  function ClassifyError(message: string): (r: Message)
    ensures Includes(message, "user rejected transaction") ==> r == Rejected
    ensures !Includes(message, "user rejected transaction") && Includes(message, "insufficient funds")
      ==> r == InsufficientFunds
    ensures (!Includes(message, "user rejected transaction") && !Includes(message, "insufficient funds")
             && Includes(message, "already registered")) ==> r == AlreadyRegistered
    ensures r == RegistrationFailed <==>
      !Includes(message, "user rejected transaction") && !Includes(message, "insufficient funds")
      && !Includes(message, "already registered")
  {
    if Includes(message, "user rejected transaction") then Rejected
    else if Includes(message, "insufficient funds") then InsufficientFunds
    else if Includes(message, "already registered") then AlreadyRegistered
    else RegistrationFailed
  }

  /** What the try block leaves behind: the calls made, the status shown,
      whether the form was cleared, and the error it threw, if any. */
  datatype Attempt = Attempt(calls: seq<Call>, status: Status, reset: bool, thrown: Option<Thrown>)

  /** The try block of `handleRegister`, for file f and contract c. `hash`
      is `calculateSHA256`; `pin` gives the pinning service's answer for a
      file. A lookup that throws is ignored, as if the hash were unknown. */
  function TryRegister(f: File, c: Contract, title: string, description: string,
                       hash: File -> Result<string, Thrown>, jwt: string, pin: File -> PinResponse): Attempt
  {
    match hash(f)
    case Failure(e) => Attempt([HashFile(f)], Status(Loading, Hashing), false, Some(e))
    case Success(h) =>
      var lookup := c.verifyArtwork(h);
      if lookup.Success? && lookup.value.owner != ZeroAddress then
        Attempt([HashFile(f), VerifyArtwork(h)], Status(Failed, TakenByAnother), false, None)
      else
        var p := Publish(f, c, h, Trim(title), Trim(description), jwt, pin);
        p.(calls := [HashFile(f), VerifyArtwork(h)] + p.calls)
  }

  /** The rest of the try block once the hash h is known to be free: upload
      the file, commit the record with the trimmed title t and description
      d, and wait for the confirmation. */
  function Publish(f: File, c: Contract, h: string, t: string, d: string,
                   jwt: string, pin: File -> PinResponse): Attempt
  {
    match UploadToIPFS(jwt, pin(f))
    case Failure(e) => Attempt([UploadToIpfs(f)], Status(Loading, Uploading), false, Some(e))
    case Success(ipfs) =>
      var committed := [UploadToIpfs(f), RegisterArtwork(ipfs, h, t, d)];
      match c.registerArtwork(ipfs, h, t, d)
      case Failure(e) => Attempt(committed, Status(Loading, Committing), false, Some(e))
      case Success(tx) =>
        match tx.wait
        case Failure(e) => Attempt(committed + [WaitForReceipt], Status(Loading, Confirming), false, Some(e))
        case Success(_) => Attempt(committed + [WaitForReceipt], Status(Succeeded, Registered), true, None)
  }

  /** How a run of `handleRegister` ends: the calls made, the final status,
      whether the form was cleared, and whether the handler's promise
      rejects. */
  datatype Run = Run(calls: seq<Call>, status: Status, reset: bool, rejects: bool)

  /** The three precondition checks, in order; None when all pass. */
  function Gate(isConnected: bool, account: Option<string>, contract: Option<Contract>,
                file: Option<File>, title: string): Option<Message>
  {
    if !isConnected || !Truthy(account) then Some(ConnectFirst)
    else if file.None? || Trim(title) == "" then Some(FillFields)
    else if contract.None? then Some(ContractNotLoaded)
    else None
  }

  /** The status the catch block leaves. An error without a message makes
      the catch block itself throw (`error.message.includes` on undefined),
      so the status keeps the last loading message. */
  function CaughtStatus(a: Attempt): Status {
    match a.thrown
    case None => a.status
    case Some(e) =>
      match e.message
      case None => a.status
      case Some(m) => Status(Failed, ClassifyError(m))
  }

  /** The try block followed by its catch: the promise rejects when the
      catch block itself throws. */
  function Catch(a: Attempt): Run {
    Run(a.calls, CaughtStatus(a), a.reset, a.thrown.Some? && a.thrown.value.message.None?)
  }

  /** The whole handler: the gates, then the try block and its catch. */
  function RegisterRun(isConnected: bool, account: Option<string>, contract: Option<Contract>,
                       file: Option<File>, title: string, description: string,
                       hash: File -> Result<string, Thrown>, jwt: string, pin: File -> PinResponse): Run
  {
    match Gate(isConnected, account, contract, file, title)
    case Some(m) => Run([], Status(Failed, m), false, false)
    case None => Catch(TryRegister(file.value, contract.value, title, description, hash, jwt, pin))
  }

  /** The gates come first and in this order: session, then file and
      title, then contract; a run stopped by a gate makes no external call. */
  lemma GatesComeFirst(isConnected: bool, account: Option<string>, contract: Option<Contract>,
                       file: Option<File>, title: string, description: string,
                       hash: File -> Result<string, Thrown>, jwt: string, pin: File -> PinResponse)
    ensures var run := RegisterRun(isConnected, account, contract, file, title, description, hash, jwt, pin);
      && (!isConnected || !Truthy(account) ==> run.calls == [] && run.status == Status(Failed, ConnectFirst))
      && (isConnected && Truthy(account) && (file.None? || Trim(title) == "") ==>
            run.calls == [] && run.status == Status(Failed, FillFields))
      && (isConnected && Truthy(account) && file.Some? && Trim(title) != "" && contract.None? ==>
            run.calls == [] && run.status == Status(Failed, ContractNotLoaded))
      && (run.calls == [] <==> !isConnected || !Truthy(account) || file.None? || Trim(title) == "" || contract.None?)
  {
    if Gate(isConnected, account, contract, file, title).None? {
      TryPlan(file.value, contract.value, title, description, hash, jwt, pin);
    }
  }

  /** The lookup leaves the hash h free: it threw, or it reported the zero
      owner. */
  predicate Free(c: Contract, h: string) {
    c.verifyArtwork(h).Failure? || c.verifyArtwork(h).value.owner == ZeroAddress
  }

  /** Every awaited step of the try block succeeds: the hash, a free
      lookup, the upload, the commit and the confirmation. */
  predicate AllStepsSucceed(f: File, c: Contract, title: string, description: string,
                            hash: File -> Result<string, Thrown>, jwt: string, pin: File -> PinResponse)
  {
    && hash(f).Success? && Free(c, hash(f).value)
    && UploadToIPFS(jwt, pin(f)).Success?
    && c.registerArtwork(UploadToIPFS(jwt, pin(f)).value, hash(f).value, Trim(title), Trim(description)).Success?
    && c.registerArtwork(UploadToIPFS(jwt, pin(f)).value, hash(f).value, Trim(title), Trim(description)).value.wait.Success?
  }

  /** The try block always makes at least the hashing call. */
  lemma TryCalls(f: File, c: Contract, title: string, description: string,
                 hash: File -> Result<string, Thrown>, jwt: string, pin: File -> PinResponse)
    ensures TryRegister(f, c, title, description, hash, jwt, pin).calls != []
  {
  }

  /** The try block's calls follow one plan, and each step is reached
      exactly when the ones before it succeeded: hash the file; look the
      hash up once it is known; upload exactly when the lookup threw or
      gave the zero owner; commit (upload result, hash, trimmed title,
      trimmed description) exactly after a successful upload; wait exactly
      after the commit was accepted. */
  lemma TryPlan(f: File, c: Contract, title: string, description: string,
                  hash: File -> Result<string, Thrown>, jwt: string, pin: File -> PinResponse)
    ensures var a := TryRegister(f, c, title, description, hash, jwt, pin);
      var hashed := hash(f);
      var uploaded := UploadToIPFS(jwt, pin(f));
      && 1 <= |a.calls| <= 5
      && a.calls[0] == HashFile(f)
      && (|a.calls| >= 2 <==> hashed.Success?)
      && (|a.calls| >= 2 ==> a.calls[1] == VerifyArtwork(hashed.value))
      && (|a.calls| >= 3 <==> hashed.Success? && Free(c, hashed.value))
      && (|a.calls| >= 3 ==> a.calls[2] == UploadToIpfs(f))
      && (|a.calls| >= 4 <==> hashed.Success? && Free(c, hashed.value) && uploaded.Success?)
      && (|a.calls| >= 4 ==>
            a.calls[3] == RegisterArtwork(uploaded.value, hashed.value, Trim(title), Trim(description)))
      && (|a.calls| == 5 <==>
            hashed.Success? && Free(c, hashed.value) && uploaded.Success?
            && c.registerArtwork(uploaded.value, hashed.value, Trim(title), Trim(description)).Success?)
      && (|a.calls| == 5 ==> a.calls[4] == WaitForReceipt)
  {
  }

  /** A run that makes any call passed the gates and follows the plan of
      its try block, each step reached exactly when the ones before it
      succeeded. */
  lemma CallsFollowPlan(isConnected: bool, account: Option<string>, contract: Option<Contract>,
                        file: Option<File>, title: string, description: string,
                        hash: File -> Result<string, Thrown>, jwt: string, pin: File -> PinResponse)
    requires RegisterRun(isConnected, account, contract, file, title, description, hash, jwt, pin).calls != []
    ensures isConnected && Truthy(account) && file.Some? && Trim(title) != "" && contract.Some?
    ensures var run := RegisterRun(isConnected, account, contract, file, title, description, hash, jwt, pin);
      var f, c := file.value, contract.value;
      var hashed := hash(f);
      var uploaded := UploadToIPFS(jwt, pin(f));
      && 1 <= |run.calls| <= 5
      && run.calls[0] == HashFile(f)
      && (|run.calls| >= 2 <==> hashed.Success?)
      && (|run.calls| >= 2 ==> run.calls[1] == VerifyArtwork(hashed.value))
      && (|run.calls| >= 3 <==> hashed.Success? && Free(c, hashed.value))
      && (|run.calls| >= 3 ==> run.calls[2] == UploadToIpfs(f))
      && (|run.calls| >= 4 <==> hashed.Success? && Free(c, hashed.value) && uploaded.Success?)
      && (|run.calls| >= 4 ==>
            run.calls[3] == RegisterArtwork(uploaded.value, hashed.value, Trim(title), Trim(description)))
      && (|run.calls| == 5 <==>
            hashed.Success? && Free(c, hashed.value) && uploaded.Success?
            && c.registerArtwork(uploaded.value, hashed.value, Trim(title), Trim(description)).Success?)
      && (|run.calls| == 5 ==> run.calls[4] == WaitForReceipt)
  {
    TryPlan(file.value, contract.value, title, description, hash, jwt, pin);
  }

  /** A fingerprint the ledger already assigns to a real owner stops the
      run before the upload: no upload, no commit, a duplicate error. */
  lemma DuplicateStopsBeforeUpload(account: string, c: Contract, f: File, title: string, description: string,
                                   hash: File -> Result<string, Thrown>, jwt: string, pin: File -> PinResponse)
    requires account != "" && Trim(title) != "" && hash(f).Success?
    requires var lookup := c.verifyArtwork(hash(f).value);
      lookup.Success? && lookup.value.owner != ZeroAddress
    ensures var run := RegisterRun(true, Some(account), Some(c), Some(f), title, description, hash, jwt, pin);
      run.calls == [HashFile(f), VerifyArtwork(hash(f).value)]
      && run.status == Status(Failed, TakenByAnother) && !run.reset && !run.rejects
  {
  }

  /** A lookup that throws and one that reports the zero owner both count
      as "not registered": the run goes on to the upload. */
  lemma LookupFailureProceeds(account: string, c: Contract, f: File, title: string, description: string,
                              hash: File -> Result<string, Thrown>, jwt: string, pin: File -> PinResponse)
    requires account != "" && Trim(title) != "" && hash(f).Success?
    requires c.verifyArtwork(hash(f).value).Failure? || c.verifyArtwork(hash(f).value).value.owner == ZeroAddress
    ensures var run := RegisterRun(true, Some(account), Some(c), Some(f), title, description, hash, jwt, pin);
      |run.calls| >= 3 && run.calls[2] == UploadToIpfs(f)
  {
    TryPlan(f, c, title, description, hash, jwt, pin);
  }

  /** The registration itself: a connected account, a title, a file whose
      hash is free, and a successful upload, commit and confirmation make
      exactly the five calls, in order, show the success message and clear
      the form, and the promise resolves. */
  lemma HappyPath(account: string, c: Contract, f: File, title: string, description: string,
                  hash: File -> Result<string, Thrown>, jwt: string, pin: File -> PinResponse)
    requires account != "" && Trim(title) != ""
    requires AllStepsSucceed(f, c, title, description, hash, jwt, pin)
    ensures var run := RegisterRun(true, Some(account), Some(c), Some(f), title, description, hash, jwt, pin);
      var h, ipfs := hash(f).value, UploadToIPFS(jwt, pin(f)).value;
      && run.calls == [HashFile(f), VerifyArtwork(h), UploadToIpfs(f),
                       RegisterArtwork(ipfs, h, Trim(title), Trim(description)), WaitForReceipt]
      && run.reset && run.status == Status(Succeeded, Registered) && !run.rejects
  {
  }

  /** The try block clears the form exactly when every step succeeded, the
      confirmation included, and exactly when it makes all five calls
      without throwing; it then shows the success message. A thrown error
      leaves a loading status. */
  lemma TryResetOnlyAfterConfirmation(f: File, c: Contract, title: string, description: string,
                                      hash: File -> Result<string, Thrown>, jwt: string, pin: File -> PinResponse)
    ensures var a := TryRegister(f, c, title, description, hash, jwt, pin);
      (a.reset <==> AllStepsSucceed(f, c, title, description, hash, jwt, pin))
      && (a.reset <==> |a.calls| == 5 && a.thrown.None?)
      && (a.reset <==> a.status == Status(Succeeded, Registered))
      && (a.thrown.Some? ==> a.status.kind == Loading)
  {
  }

  /** The handler clears the form exactly when every gate passes and every
      step succeeds, the confirmation included; then it has made the five
      calls, shows the success message, and the promise resolves. */
  lemma ResetOnlyAfterConfirmation(isConnected: bool, account: Option<string>, contract: Option<Contract>,
                                   file: Option<File>, title: string, description: string,
                                   hash: File -> Result<string, Thrown>, jwt: string, pin: File -> PinResponse)
    ensures var run := RegisterRun(isConnected, account, contract, file, title, description, hash, jwt, pin);
      (run.reset <==>
         isConnected && Truthy(account) && file.Some? && Trim(title) != "" && contract.Some?
         && AllStepsSucceed(file.value, contract.value, title, description, hash, jwt, pin))
      && (run.reset <==> |run.calls| == 5 && run.status == Status(Succeeded, Registered))
      && (run.reset ==> !run.rejects)
  {
    if Gate(isConnected, account, contract, file, title).None? {
      TryResetOnlyAfterConfirmation(file.value, contract.value, title, description, hash, jwt, pin);
    }
  }

  /** An error thrown inside the try block with a message ends the run
      with the classified message; one without a message leaves the last
      loading status in place and makes the promise reject. */
  lemma ErrorsAreCaught(f: File, c: Contract, account: string, title: string, description: string,
                        hash: File -> Result<string, Thrown>, jwt: string, pin: File -> PinResponse)
    requires account != "" && Trim(title) != ""
    requires TryRegister(f, c, title, description, hash, jwt, pin).thrown.Some?
    ensures var a := TryRegister(f, c, title, description, hash, jwt, pin);
      var run := RegisterRun(true, Some(account), Some(c), Some(f), title, description, hash, jwt, pin);
      var e := a.thrown.value;
      && !run.reset
      && (e.message.Some? ==> run.status == Status(Failed, ClassifyError(e.message.value)) && !run.rejects)
      && (e.message.None? ==> run.status == a.status && run.status.kind == Loading && run.rejects)
  {
    TryResetOnlyAfterConfirmation(f, c, title, description, hash, jwt, pin);
  }

  /** Registering content with the same fingerprint a second time, against
      a ledger that recorded the first registration, stops at the duplicate
      check: the second run uploads nothing and commits nothing. */
  lemma SecondRegistrationIsDuplicate(base: Contract, records: map<string, Details>, account: string, now: nat,
                                      f1: File, f2: File, title1: string, title2: string,
                                      description1: string, description2: string,
                                      hash: File -> Result<string, Thrown>, jwt: string, pin: File -> PinResponse)
    requires account != "" && account != ZeroAddress
    requires hash(f1) == hash(f2) && Trim(title2) != ""
    requires RegisterRun(true, Some(account), Some(RecordsContract(base, records)), Some(f1),
                         title1, description1, hash, jwt, pin).reset
    ensures var first := RegisterRun(true, Some(account), Some(RecordsContract(base, records)), Some(f1),
                                     title1, description1, hash, jwt, pin);
      |first.calls| == 5 &&
      var commit := first.calls[3];
      var after := Commit(records, account, now, commit.ipfsHash, commit.contentHash, commit.title, commit.description);
      var second := RegisterRun(true, Some(account), Some(RecordsContract(base, after)), Some(f2),
                                title2, description2, hash, jwt, pin);
      second.calls == [HashFile(f2), VerifyArtwork(hash(f2).value)]
      && second.status == Status(Failed, TakenByAnother)
  {
    var c := RecordsContract(base, records);
    ResetOnlyAfterConfirmation(true, Some(account), Some(c), Some(f1), title1, description1, hash, jwt, pin);
    CallsFollowPlan(true, Some(account), Some(c), Some(f1), title1, description1, hash, jwt, pin);
    var first := RegisterRun(true, Some(account), Some(c), Some(f1), title1, description1, hash, jwt, pin);
    var commit := first.calls[3];
    var after := Commit(records, account, now, commit.ipfsHash, commit.contentHash, commit.title, commit.description);
    assert commit.contentHash == hash(f2).value;
    assert commit.contentHash in after;
    DuplicateStopsBeforeUpload(account, RecordsContract(base, after), f2, title2, description2, hash, jwt, pin);
  }

  /** The page's state. `calls` records the external calls of the last
      `handleRegister`. */
  class RegisterPage {
    var file: Option<File>
    var preview: Option<string>
    var title: string
    var description: string
    var isUploading: bool
    var status: Status
    ghost var calls: seq<Call>

    constructor ()
      ensures file == None && preview == None && title == "" && description == ""
      ensures !isUploading && status == NoStatus && calls == []
    {
      file := None;
      preview := None;
      title := "";
      description := "";
      isUploading := false;
      status := NoStatus;
      calls := [];
    }

    /** `handleFileChange`: `selected` is `e.target.files[0]`, `objectUrl`
        the preview URL the browser would create for it. A refused file
        leaves `file` and `preview` as they were. */
    method HandleFileChange(selected: Option<File>, objectUrl: string)
      modifies this`file, this`preview, this`status
      ensures selected.None? ==> file == old(file) && preview == old(preview) && status == old(status)
      ensures selected.Some? && SelectionError(selected.value).Some? ==>
        file == old(file) && preview == old(preview)
        && status == Status(Failed, Refused(SelectionError(selected.value).value))
      ensures selected.Some? && SelectionError(selected.value).None? ==>
        file == selected && preview == Some(objectUrl) && status == NoStatus
    {
      if selected.Some? {
        var f := selected.value;
        if f.size > MaxFileSize {
          status := Status(Failed, Refused(TooLarge));
          return;
        }
        if f.mimeType !in ValidTypes {
          status := Status(Failed, Refused(NotAnImage));
          return;
        }
        file := Some(f);
        preview := Some(objectUrl);
        status := NoStatus;
      }
    }

    /** The try block: each awaited call in turn, with the status it shows
        while it runs. */
    method Try(f: File, c: Contract, hash: File -> Result<string, Thrown>, jwt: string, pin: File -> PinResponse)
      returns (thrown: Option<Thrown>)
      modifies this
      ensures var a := TryRegister(f, c, old(title), old(description), hash, jwt, pin);
        && calls == old(calls) + a.calls && status == a.status && thrown == a.thrown
        && (a.reset ==> file == None && preview == None && title == "" && description == "")
        && (!a.reset ==> file == old(file) && preview == old(preview)
                         && title == old(title) && description == old(description))
        && isUploading == (if a.status == Status(Failed, TakenByAnother) then false else old(isUploading))
    {
      status := Status(Loading, Hashing);
      calls := calls + [HashFile(f)];
      var hashed := hash(f);
      if hashed.Failure? {
        return Some(hashed.error);
      }
      var contentHash := hashed.value;

      status := Status(Loading, Checking);
      calls := calls + [VerifyArtwork(contentHash)];
      var lookup := c.verifyArtwork(contentHash);
      if lookup.Success? && lookup.value.owner != ZeroAddress {
        status := Status(Failed, TakenByAnother);
        isUploading := false;
        return None;
      }

      thrown := PublishArtwork(f, c, contentHash, jwt, pin);
    }

    /** The upload, the commit and the wait, with the statuses they show. */
    method PublishArtwork(f: File, c: Contract, contentHash: string, jwt: string, pin: File -> PinResponse)
      returns (thrown: Option<Thrown>)
      modifies this`status, this`calls, this`file, this`preview, this`title, this`description
      ensures var p := Publish(f, c, contentHash, Trim(old(title)), Trim(old(description)), jwt, pin);
        && calls == old(calls) + p.calls && status == p.status && thrown == p.thrown
        && (p.reset ==> file == None && preview == None && title == "" && description == "")
        && (!p.reset ==> file == old(file) && preview == old(preview)
                         && title == old(title) && description == old(description))
    {
      status := Status(Loading, Uploading);
      calls := calls + [UploadToIpfs(f)];
      var uploaded := UploadToIPFS(jwt, pin(f));
      if uploaded.Failure? {
        return Some(uploaded.error);
      }
      var ipfsHash := uploaded.value;

      status := Status(Loading, Committing);
      var t, d := Trim(title), Trim(description);
      calls := calls + [RegisterArtwork(ipfsHash, contentHash, t, d)];
      var submitted := c.registerArtwork(ipfsHash, contentHash, t, d);
      if submitted.Failure? {
        return Some(submitted.error);
      }

      status := Status(Loading, Confirming);
      calls := calls + [WaitForReceipt];
      var confirmed := submitted.value.wait;
      if confirmed.Failure? {
        return Some(confirmed.error);
      }

      status := Status(Succeeded, Registered);
      file := None;
      preview := None;
      title := "";
      description := "";
      return None;
    }

    /** `handleRegister`, given the page's props (`isConnected`, `account`,
        `contract`), the digest, the pinning token and the pinning
        service's answer for each file. `rejects` tells whether the
        handler's promise rejects. `isUploading` ends false on every path
        past the gates. */
    method HandleRegister(isConnected: bool, account: Option<string>, contract: Option<Contract>,
                          hash: File -> Result<string, Thrown>, jwt: string, pin: File -> PinResponse)
      returns (rejects: bool)
      modifies this
      ensures var run := RegisterRun(isConnected, account, contract, old(file), old(title), old(description),
                                     hash, jwt, pin);
        && calls == run.calls && status == run.status && rejects == run.rejects
        && (run.reset ==> file == None && preview == None && title == "" && description == "")
        && (!run.reset ==> file == old(file) && preview == old(preview)
                           && title == old(title) && description == old(description))
        && isUploading == (if run.calls == [] then old(isUploading) else false)
    {
      calls := [];
      rejects := false;
      if !isConnected || !Truthy(account) {
        status := Status(Failed, ConnectFirst);
        return;
      }
      if file.None? || Trim(title) == "" {
        status := Status(Failed, FillFields);
        return;
      }
      if contract.None? {
        status := Status(Failed, ContractNotLoaded);
        return;
      }

      isUploading := true;
      status := Status(Loading, Processing);
      ghost var f, t, d := file.value, title, description;
      var thrown := Try(file.value, contract.value, hash, jwt, pin);
      TryResetOnlyAfterConfirmation(f, contract.value, t, d, hash, jwt, pin);
      TryCalls(f, contract.value, t, d, hash, jwt, pin);
      if thrown.Some? {
        var e := thrown.value;
        if e.message.None? {
          rejects := true;
        } else {
          status := Status(Failed, ClassifyError(e.message.value));
        }
      }
      isUploading := false;
    }
  }
}
