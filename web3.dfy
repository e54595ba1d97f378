/** The wallet session hook (useWeb3.js): seven pieces of state that
    `connectWallet`, `disconnectWallet`, `checkConnection` and the
    accounts-changed listener update. The injected wallet is a parameter
    giving how each of its requests settles; `ethers` objects are values
    that remember what they were built from. */
module Web3 {
  import opened Wrappers
  import opened Js

  /** `new ethers.BrowserProvider(window.ethereum)`, for the wallet with
      this id. */
  datatype Provider = BrowserProvider(walletId: nat)

  /** The signer `getSigner()` resolves with. */
  datatype Signer = Signer(address: string)

  /** `new ethers.Contract(address, abi, signer)`. */
  datatype ContractInstance = ContractInstance(address: string, signer: Signer)

  /** The injected wallet (`window.ethereum`): how `eth_requestAccounts`,
      `eth_accounts` and the provider's `getSigner()` settle. */
  datatype Wallet = Wallet(
    id: nat,
    requestAccounts: Result<seq<string>, Thrown>,
    accounts: Result<seq<string>, Thrown>,
    getSigner: Result<Signer, Thrown>)

  const ContractAddressMessage: string :=
    "Contract address not configured. Please check your environment variables."

  const InstallMessage: string := "Please install MetaMask!"

  const RejectedMessage: string := "Please connect your wallet to continue."

  /** The wallet's error code for a request the user rejected. */
  const UserRejectedCode: int := 4001

  /** `createContractInstance`: refuses an unset contract address ("")
      and otherwise binds the address to the signer. */
  function CreateContractInstance(contractAddress: string, signer: Signer): (r: Result<ContractInstance, Thrown>)
    ensures r.Failure? <==> contractAddress == ""
    ensures r.Failure? ==> r.error == NewError(ContractAddressMessage)
    ensures r.Success? ==> r.value == ContractInstance(contractAddress, signer)
  {
    if contractAddress == "" then Failure(NewError(ContractAddressMessage))
    else Success(ContractInstance(contractAddress, signer))
  }

  /** The hook's state; None stands for null. */
  datatype Session = Session(
    account: Option<string>, provider: Option<Provider>, signer: Option<Signer>,
    contract: Option<ContractInstance>, isConnected: bool, isConnecting: bool,
    error: Option<string>)

  const Initial: Session := Session(None, None, None, None, false, false, None)

  /** A connected session has its provider, signer and contract. */
  predicate Valid(s: Session) {
    s.isConnected ==> s.provider.Some? && s.signer.Some? && s.contract.Some?
  }

  /** A connected session knows its account. */
  predicate AccountKnown(s: Session) {
    s.isConnected ==> s.account.Some?
  }

  /** What a successful connection produced (the object `connectWallet`
      resolves with). */
  datatype Connection = Connection(
    account: Option<string>, provider: Provider, signer: Signer, contract: ContractInstance)

  /** `accounts[0]`, which is undefined for an empty list. */
  function FirstAccount(accounts: seq<string>): (r: Option<string>)
    ensures r.Some? <==> |accounts| > 0
    ensures r.Some? ==> r.value == accounts[0]
  {
    if |accounts| > 0 then Some(accounts[0]) else None
  }

  /** The steps after the account request: the provider, the signer, then
      the contract instance. */
  function Establish(w: Wallet, accounts: seq<string>, contractAddress: string): (r: Result<Connection, Thrown>)
    ensures r.Success? <==> w.getSigner.Success? && contractAddress != ""
    ensures r.Success? ==>
      r.value == Connection(FirstAccount(accounts), BrowserProvider(w.id), w.getSigner.value,
                            ContractInstance(contractAddress, w.getSigner.value))
  {
    match w.getSigner
    case Failure(e) => Failure(e)
    case Success(signer) =>
      match CreateContractInstance(contractAddress, signer)
      case Failure(e) => Failure(e)
      case Success(contract) => Success(Connection(FirstAccount(accounts), BrowserProvider(w.id), signer, contract))
  }

  /** The session with every connection field set at once. */
  function Connected(s: Session, c: Connection): Session {
    s.(account := c.account, provider := Some(c.provider), signer := Some(c.signer),
       contract := Some(c.contract), isConnected := true)
  }

  /** The error shown for a failed connection: the message, replaced for a
      rejected request. */
  function ConnectError(e: Thrown): (r: Option<string>)
    ensures e.code == Some(UserRejectedCode) ==> r == Some(RejectedMessage)
    ensures e.code != Some(UserRejectedCode) ==> r == e.message
  {
    if e.code == Some(UserRejectedCode) then Some(RejectedMessage) else e.message
  }

  /** How `connectWallet` ends: the new session, and what its promise
      settles to (None for the resolved null). */
  datatype ConnectRun = ConnectRun(session: Session, result: Result<Option<Connection>, Thrown>)

  /** `connectWallet`, for the injected wallet (None when there is none)
      and the configured contract address. */
  function Connect(s: Session, wallet: Option<Wallet>, contractAddress: string): ConnectRun {
    match wallet
    case None => ConnectRun(s.(error := Some(InstallMessage)), Success(None))
    case Some(w) =>
      var attempt := match w.requestAccounts
        case Failure(e) => Failure(e)
        case Success(accounts) => Establish(w, accounts, contractAddress);
      match attempt
      case Failure(e) => ConnectRun(s.(isConnecting := false, error := ConnectError(e)), Failure(e))
      case Success(c) => ConnectRun(Connected(s, c).(isConnecting := false, error := None), Success(Some(c)))
  }

  /** `disconnectWallet`. */
  function Disconnect(s: Session): Session {
    s.(account := None, provider := None, signer := None, contract := None, isConnected := false, error := None)
  }

  /** `checkConnection`: reconnects silently to an already authorised
      account. Failures only set the error; an empty list changes
      nothing. */
  function Reconnect(s: Session, wallet: Option<Wallet>, contractAddress: string): Session {
    match wallet
    case None => s
    case Some(w) =>
      match w.accounts
      case Failure(e) => s.(error := e.message)
      case Success(accounts) =>
        if |accounts| == 0 then s
        else
          match Establish(w, accounts, contractAddress)
          case Failure(e) => s.(error := e.message)
          case Success(c) => Connected(s, c)
  }

  /** The `accountsChanged` listener. */
  function AccountsChanged(s: Session, accounts: seq<string>, wallet: Option<Wallet>, contractAddress: string): Session {
    if |accounts| > 0 then Reconnect(s, wallet, contractAddress) else Disconnect(s)
  }

  /** The fields a connection sets. */
  predicate SameConnection(s: Session, t: Session) {
    s.account == t.account && s.provider == t.provider && s.signer == t.signer
    && s.contract == t.contract && s.isConnected == t.isConnected
  }

  /** The initial state: everything null, nothing in progress. */
  lemma InitialState()
    ensures Initial.account.None? && Initial.provider.None? && Initial.signer.None?
    ensures Initial.contract.None? && Initial.error.None?
    ensures !Initial.isConnected && !Initial.isConnecting
    ensures Valid(Initial) && AccountKnown(Initial)
  {
  }

  /** Without a wallet only the error changes, and the promise resolves
      with null. */
  lemma ConnectWithoutWallet(s: Session, contractAddress: string)
    ensures var run := Connect(s, None, contractAddress);
      run.session == s.(error := Some(InstallMessage)) && run.result == Success(None)
  {
  }

  /** A connection succeeds exactly when the account request, the signer
      and the contract instance all succeed; then every connection field
      is set together, with the first account. */
  lemma ConnectSucceeds(s: Session, w: Wallet, contractAddress: string)
    ensures var run := Connect(s, Some(w), contractAddress);
      (run.result.Success? <==>
         w.requestAccounts.Success? && w.getSigner.Success? && contractAddress != "")
      && (run.result.Success? ==>
            var signer := w.getSigner.value;
            var c := Connection(FirstAccount(w.requestAccounts.value), BrowserProvider(w.id), signer,
                                ContractInstance(contractAddress, signer));
            run.result == Success(Some(c))
            && run.session.account == FirstAccount(w.requestAccounts.value)
            && run.session.contract == Some(ContractInstance(contractAddress, signer))
            && run.session.isConnected && !run.session.isConnecting && run.session.error.None?)
  {
  }

  /** A failed connection rethrows, leaves every connection field as it
      was, ends with `isConnecting` false, and shows the message or the
      rejection text. An unset contract address is such a failure. */
  lemma ConnectFailureKeepsSession(s: Session, w: Wallet, contractAddress: string)
    requires Connect(s, Some(w), contractAddress).result.Failure?
    ensures var run := Connect(s, Some(w), contractAddress);
      SameConnection(run.session, s) && !run.session.isConnecting
      && run.session.error == ConnectError(run.result.error)
      && (w.requestAccounts.Failure? ==> run.result.error == w.requestAccounts.error)
      && (w.requestAccounts.Success? && w.getSigner.Success? ==>
            contractAddress == "" && run.result.error == NewError(ContractAddressMessage))
  {
  }

  /** Disconnecting clears every connection field and the error, and a
      second disconnect changes nothing. */
  lemma DisconnectIdempotent(s: Session)
    ensures var d := Disconnect(s);
      d.account.None? && d.provider.None? && d.signer.None? && d.contract.None?
      && !d.isConnected && d.error.None? && d.isConnecting == s.isConnecting
    ensures Disconnect(Disconnect(s)) == Disconnect(s)
  {
  }

  /** An empty account list leaves the session alone on a check, and
      disconnects on an accounts-changed event. */
  lemma EmptyAccountList(s: Session, w: Wallet, contractAddress: string)
    requires w.accounts == Success([])
    ensures Reconnect(s, Some(w), contractAddress) == s
    ensures AccountsChanged(s, [], Some(w), contractAddress) == Disconnect(s)
  {
  }

  /** Every operation keeps a connected session's provider, signer and
      contract set. */
  lemma OperationsPreserveValid(s: Session, wallet: Option<Wallet>, contractAddress: string, accounts: seq<string>)
    requires Valid(s)
    ensures Valid(Connect(s, wallet, contractAddress).session)
    ensures Valid(Disconnect(s))
    ensures Valid(Reconnect(s, wallet, contractAddress))
    ensures Valid(AccountsChanged(s, accounts, wallet, contractAddress))
  {
  }

  /** A wallet that answers an account request with at least one account,
      as EIP-1102 requires of `eth_requestAccounts`. */
  predicate Conforming(w: Wallet) {
    w.requestAccounts.Success? ==> |w.requestAccounts.value| > 0
  }

  /** A connected session knows its account after every operation, the
      interactive connection provided the wallet conforms; a connection
      to a wallet that grants an empty list is connected with no
      account. */
  lemma OperationsKeepAccount(s: Session, wallet: Option<Wallet>, contractAddress: string, accounts: seq<string>)
    requires AccountKnown(s)
    ensures wallet.Some? && Conforming(wallet.value) ==> AccountKnown(Connect(s, wallet, contractAddress).session)
    ensures AccountKnown(Disconnect(s))
    ensures AccountKnown(Reconnect(s, wallet, contractAddress))
    ensures AccountKnown(AccountsChanged(s, accounts, wallet, contractAddress))
    ensures (wallet.Some? && wallet.value.requestAccounts == Success([])
             && wallet.value.getSigner.Success? && contractAddress != "") ==>
      !AccountKnown(Connect(s, wallet, contractAddress).session)
  {
  }

  /** The hook's state as fields. */
  class Web3Session {
    var account: Option<string>
    var provider: Option<Provider>
    var signer: Option<Signer>
    var contract: Option<ContractInstance>
    var isConnected: bool
    var isConnecting: bool
    var error: Option<string>

    function State(): Session
      reads this
    {
      Session(account, provider, signer, contract, isConnected, isConnecting, error)
    }

    constructor ()
      ensures State() == Initial
    {
      account := None;
      provider := None;
      signer := None;
      contract := None;
      isConnected := false;
      isConnecting := false;
      error := None;
    }

    /** `connectWallet`. */
    method ConnectWallet(wallet: Option<Wallet>, contractAddress: string)
      returns (result: Result<Option<Connection>, Thrown>)
      modifies this
      ensures State() == Connect(old(State()), wallet, contractAddress).session
      ensures result == Connect(old(State()), wallet, contractAddress).result
    {
      if wallet.None? {
        error := Some(InstallMessage);
        return Success(None);
      }
      var w := wallet.value;
      isConnecting := true;
      error := None;

      var failure: Option<Thrown> := None;
      var accounts: seq<string> := [];
      var signerValue: Signer := Signer("");
      var instance: ContractInstance := ContractInstance("", signerValue);
      if w.requestAccounts.Failure? {
        failure := Some(w.requestAccounts.error);
      } else {
        accounts := w.requestAccounts.value;
        if w.getSigner.Failure? {
          failure := Some(w.getSigner.error);
        } else {
          signerValue := w.getSigner.value;
          var created := CreateContractInstance(contractAddress, signerValue);
          if created.Failure? {
            failure := Some(created.error);
          } else {
            instance := created.value;
          }
        }
      }

      if failure.Some? {
        var e := failure.value;
        error := e.message;
        if e.code == Some(UserRejectedCode) {
          error := Some(RejectedMessage);
        }
        isConnecting := false;
        return Failure(e);
      }
      account := FirstAccount(accounts);
      provider := Some(BrowserProvider(w.id));
      signer := Some(signerValue);
      contract := Some(instance);
      isConnected := true;
      isConnecting := false;
      result := Success(Some(Connection(FirstAccount(accounts), BrowserProvider(w.id), signerValue, instance)));
    }

    /** `disconnectWallet`. */
    method DisconnectWallet()
      modifies this
      ensures State() == Disconnect(old(State()))
    {
      account := None;
      provider := None;
      signer := None;
      contract := None;
      isConnected := false;
      error := None;
    }

    /** `checkConnection`. */
    method CheckConnection(wallet: Option<Wallet>, contractAddress: string)
      modifies this
      ensures State() == Reconnect(old(State()), wallet, contractAddress)
    {
      if wallet.None? {
        return;
      }
      var w := wallet.value;
      if w.accounts.Failure? {
        error := w.accounts.error.message;
        return;
      }
      var accounts := w.accounts.value;
      if |accounts| > 0 {
        if w.getSigner.Failure? {
          error := w.getSigner.error.message;
          return;
        }
        var created := CreateContractInstance(contractAddress, w.getSigner.value);
        if created.Failure? {
          error := created.error.message;
          return;
        }
        account := FirstAccount(accounts);
        provider := Some(BrowserProvider(w.id));
        signer := Some(w.getSigner.value);
        contract := Some(created.value);
        isConnected := true;
      }
    }

    /** The `accountsChanged` listener. */
    method OnAccountsChanged(accounts: seq<string>, wallet: Option<Wallet>, contractAddress: string)
      modifies this
      ensures State() == AccountsChanged(old(State()), accounts, wallet, contractAddress)
    {
      if |accounts| > 0 {
        CheckConnection(wallet, contractAddress);
      } else {
        DisconnectWallet();
      }
    }
  }
}
