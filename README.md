# flux-prism client workflows in Dafny

flux-prism is a web front end for registering digital artworks on a ledger
contract. The page handlers and the wallet hook hold the application's
logic, and this project models that logic:

- **Register page.** The file picker's size and type gate. The
  registration handler, which:
  - checks its preconditions;
  - fingerprints the file;
  - asks the ledger whether the fingerprint is taken;
  - pins the file with the IPFS pinning service;
  - commits the record;
  - waits for the confirmation;
  - clears the form.
- **Verify page.** The same gate, and the lookup of a file's fingerprint
  that maps the ledger's answer to a verification result.
- **Gallery page.** It loads every record, falling back to sample records.
  It also has:
  - the cleaning of stored IPFS references (`extractIPFSHash`);
  - the search filter and the date sort;
  - the shortened owner display.
- **Dashboard page.** The all-or-nothing load of the connected account's
  records, the shortened hash, the gateway link, and the "First
  Registration" figure.
- **Content fingerprint** (hashing.js). `0x` followed by two lower-case hex
  digits per byte of the SHA-256 digest.
- **Wallet session hook** (useWeb3.js). Seven pieces of state, updated by
  connecting, disconnecting, the silent reconnection check and the
  accounts-changed listener.
- **Header.** The shortened account, the navigation items, and the wallet
  button.

Each page's React state is a Dafny `class`, and each handler is a method on
it. Every handler's `ensures` ties the state it leaves, and what its promise
does, to a function of the inputs: `RegisterRun`, `VerifyRun`,
`FetchOutcome`, `LoadResult`, `Connect`, `Disconnect`, `Reconnect` and
`AccountsChanged`. The lemmas about those functions state what the
application promises.

The register and verify pages also keep a ghost log of the external calls
they made. That log turns "no upload unless …" into a statement about a
sequence.

Everything outside the browser code becomes an oracle (a value saying how
each call settles: a result, or a thrown error). This covers:

- the ledger contract;
- the pinning service;
- the injected wallet;
- the SHA-256 digest.

Module layout: one module per source file, plus a few shared modules.

| module | file | contents |
|---|---|---|
| `Wrappers` | `wrappers.dfy` | `Option` and `Result` |
| `Js` | `js.dfy` | the JavaScript string methods and thrown values the handlers use |
| `Files` | `files.dfy` | the selected file and its gate |
| `Hashing` | `hashing.dfy` | hashing.js |
| `Ledger` | `ledger.dfy` | the contract oracle, `getReadOnlyContract`, and `uploadToIPFS` as an oracle |
| `Register` | `register.dfy` | Register.jsx |
| `Verify` | `verify.dfy` | Verify.jsx |
| `Gallery` | `gallery.dfy` | Gallery.jsx |
| `Dashboard` | `dashboard.dfy` | Dashboard.jsx |
| `Web3` | `web3.dfy` | useWeb3.js |
| `Header` | `header.dfy` | Header.jsx |

## Model

| member | source | states |
|---|---|---|
| Js.SliceTail | src/pages/Verify.jsx:111 | `slice(-k)` for k > 0 keeps the last k characters, or the whole of a shorter string |
| Js.IncludesIff | src/pages/Register.jsx:104-108 | `includes(p)` holds exactly when p occurs at some position of the string |
| Js.SplitSpec | src/pages/Gallery.jsx:24 | the pieces of `split(sep)` joined with sep give the string back, no piece contains sep, and each cut is the leftmost occurrence of sep after the previous one: every piece stands at its start, no sep starts inside it, a sep follows every piece but the last, and the last ends the string |
| Js.FirstPiece | src/pages/Gallery.jsx:24 | the first piece of a split is a prefix without sep, no occurrence of sep starts inside it, and it is followed by sep or by the end of the string |
| Js.LastSegmentFacts | src/pages/Dashboard.jsx:205 | `split('/').pop()` is a suffix without '/', preceded by '/' unless it is the whole string |
| Js.LastSegmentIsLastPiece | src/pages/Dashboard.jsx:205 | the last segment is exactly the last piece of the split at "/", which `pop()` returns |
| Js.TrimSpec | src/pages/Register.jsx:41 | `trim()` is empty exactly for all-whitespace text; otherwise it neither starts nor ends with whitespace; it is the stretch of the text between its leading and its trailing whitespace, and everything removed on either side is whitespace |
| Js.ToLower | src/pages/Gallery.jsx:155-156 | `toLowerCase()` keeps the length and lowers each character |
| Files.SelectionError | src/pages/Register.jsx:18-27 | a file over 10 MiB is refused as too large, checked first; otherwise a type other than the four image types is refused; otherwise the file is accepted |
| Files.SizeBoundary | src/pages/Register.jsx:18 | exactly 10485760 bytes passes and 10485761 is refused |
| Hashing.ByteToHex | src/utils/hashing.js:8 | `toString(16).padStart(2, '0')` is exactly two lower-case digits, high nibble first |
| Hashing.EncodeHex | src/utils/hashing.js:8 | the encoding has two lower-case hex digits per byte |
| Hashing.DecodeEncode | src/utils/hashing.js:7-8 | byte order is kept: decoding the digit pairs gives the bytes back |
| Hashing.EncodeInjective | src/utils/hashing.js:7-8 | distinct byte strings have distinct encodings |
| Hashing.FingerprintFormat | src/utils/hashing.js:6-8 | a 32-byte digest gives 66 characters: "0x" and 64 lower-case hex digits that decode to the digest |
| Hashing.FingerprintInjective | src/utils/hashing.js:8 | different digests give different fingerprints |
| Hashing.CalculateSHA256 | src/utils/hashing.js:1-14 | rejects with the reader's error event exactly when the file cannot be read; otherwise resolves with the fingerprint of the digest of its bytes |
| Hashing.CalculateSHA256Format | src/utils/hashing.js:6-9 | a readable file resolves with a 66-character "0x" string that decodes to the digest of its bytes |
| Hashing.SameBytesSameFingerprint | src/utils/hashing.js:5-9 | the result depends only on the file's bytes |
| Ledger.GetReadOnlyContract | src/utils/contract.js:199-203 | throws the configuration error exactly when the contract address is unset |
| Ledger.GatewayUrl | src/utils/ipfs.js:39 | the URL is the gateway prefix followed by the content id |
| Ledger.UploadToIPFS | src/utils/ipfs.js:4-44 | resolves exactly when a token is set and the service pinned the file, with that id's gateway URL; a missing token or a status that is not ok throws the source's message |
| Register.ClassifyError | src/pages/Register.jsx:102-110 | "user rejected transaction", then "insufficient funds", then "already registered", decide the message in that order; otherwise the generic failure |
| Register.GatesComeFirst | src/pages/Register.jsx:36-49 | the wallet check comes before the file/title check, which comes before the contract check; a gated run makes no call; a run makes no call exactly when a gate stops it |
| Register.TryPlan | src/pages/Register.jsx:54-98 | the try block's calls in order, each step reached exactly when the ones before succeeded: hash the file; look the hash up exactly when hashing succeeded; upload exactly when the lookup threw or gave the zero owner; commit (upload result, hash, trimmed title, trimmed description) exactly after a successful upload; wait exactly after an accepted commit |
| Register.CallsFollowPlan | src/pages/Register.jsx:35-98 | a run that makes any call passed every gate and follows the plan above, each step reached exactly when the ones before succeeded |
| Register.DuplicateStopsBeforeUpload | src/pages/Register.jsx:62-71 | a fingerprint held by a non-zero owner stops the run after the lookup: no upload, no commit, the duplicate message, the form kept |
| Register.LookupFailureProceeds | src/pages/Register.jsx:62-79 | a lookup that throws and one that reports the zero owner both count as not registered, and the run goes on to the upload |
| Register.HappyPath | src/pages/Register.jsx:54-98 | with the gates passed, a free hash and a successful upload, commit and confirmation, the run makes exactly the five calls in order, shows the success message, clears the form and resolves |
| Register.TryResetOnlyAfterConfirmation | src/pages/Register.jsx:54-98 | the try block clears the form exactly when every step succeeds (hash, free lookup, upload, commit, confirmation), exactly when it makes all five calls without throwing, and exactly when it shows the success message; a thrown error leaves a loading status |
| Register.ResetOnlyAfterConfirmation | src/pages/Register.jsx:35-98 | the handler clears the form exactly when every gate passes and every step succeeds, and exactly when it made the five calls and shows the success message; the promise then resolves |
| Register.ErrorsAreCaught | src/pages/Register.jsx:100-118 | an error with a message is shown classified and the form is kept; an error without one (a reader's error event) leaves the last loading status and makes the promise reject |
| Register.SecondRegistrationIsDuplicate | src/pages/Register.jsx:57-71 | after a confirmed registration, content with the same fingerprint is refused at the lookup, with no upload and no commit |
| Register.RegisterPage.constructor | src/pages/Register.jsx:7-12 | no file, no preview, empty title and description, not uploading, empty status |
| Register.RegisterPage.HandleFileChange | src/pages/Register.jsx:14-33 | a refused file sets the refusal status and keeps `file` and `preview`; an accepted one is stored with its preview and the status is cleared; no file changes nothing |
| Register.RegisterPage.Try | src/pages/Register.jsx:54-99 | the try block's effect on the page equals `TryRegister`: calls, status, thrown error, form reset |
| Register.RegisterPage.PublishArtwork | src/pages/Register.jsx:77-98 | the upload, commit and wait steps equal `Publish`, with the title and description trimmed |
| Register.RegisterPage.HandleRegister | src/pages/Register.jsx:35-119 | the final page state, call log and promise outcome equal `RegisterRun`; `isUploading` ends false on every path past the gates |
| Verify.LookupResult | src/pages/Verify.jsx:59-88 | a verified result exactly for a successful lookup with a non-zero owner, carrying that owner, the timestamp times 1000, the title or 'Untitled', and the hash; otherwise "not registered" |
| Verify.ClassifyError | src/pages/Verify.jsx:92-98 | "network" first, then "contract", otherwise the generic message |
| Verify.NoFileNoCall | src/pages/Verify.jsx:40-56 | with no file: the select-a-file result and no call; no call happens exactly when there is no file or no contract address; otherwise hashing comes first |
| Verify.VerifiedMeansRegistered | src/pages/Verify.jsx:53-80 | a verified result carries the selected file's fingerprint and the non-zero owner the ledger reported for exactly that fingerprint |
| Verify.LookupShownForSelectedFile | src/pages/Verify.jsx:53-80 | the converse: with a file, an address and a successful hash, the ledger is asked about exactly that fingerprint and its answer is shown, verified exactly when it names a non-zero owner |
| Verify.VerifyAsksForCommittedHash | src/pages/Verify.jsx:56-61 | with SHA-256 fingerprints on both pages, a file with the same bytes as a registered one makes the verify page look up exactly the committed fingerprint |
| Verify.ThrownLookupLooksUnregistered | src/pages/Verify.jsx:66-88 | a thrown lookup and a zero-owner answer give the same "not registered" result |
| Verify.MissingAddressStopsBeforeHashing | src/pages/Verify.jsx:51-103 | an unset contract address fails before any call and its error is classified |
| Verify.HashFailureIsCaught | src/pages/Verify.jsx:56-103 | a failed hash asks the ledger nothing; its error is classified, or, without a message, the result stays null and the promise rejects |
| Verify.TruncateAddress | src/pages/Verify.jsx:109-112 | '' for a falsy address, otherwise the first 8 characters, "...", and the last 6 |
| Verify.TruncateAddressShape | src/pages/Verify.jsx:111 | an address of at least 8 characters shows as 17 characters |
| Verify.VerifyPage.constructor | src/pages/Verify.jsx:7-10 | no file, no preview, a null result, not verifying |
| Verify.VerifyPage.HandleFileChange | src/pages/Verify.jsx:12-37 | a refused file sets a `verified: false` result with the refusal and is not stored; an accepted one is stored and clears the result |
| Verify.VerifyPage.HandleVerify | src/pages/Verify.jsx:39-107 | the final result, call log and promise outcome equal `VerifyRun`; `isVerifying` ends false whenever a file was selected |
| Gallery.ExtractCases | src/pages/Gallery.jsx:14-35 | '' gives ''; a "Qm" id is kept; without "/ipfs/" a gateway URL gives its last '/' segment; anything else is kept |
| Gallery.ExtractFromPath | src/pages/Gallery.jsx:23-25 | with "/ipfs/" the result is the text after its first occurrence, up to the next one or the end, and no "/ipfs/" starts inside it |
| Gallery.ExtractFromGatewayUrl | src/pages/Gallery.jsx:28-31 | a gateway URL without "/ipfs/" gives a suffix without '/', preceded by '/' when shorter |
| Gallery.ExtractUploadedUrl | src/pages/Gallery.jsx:23-25 | round trip with the upload: the gateway URL of a content id without "/ipfs/" cleans back to that id |
| Gallery.ToArtworkFields | src/pages/Gallery.jsx:67-78 | a fetched record has the title or 'Untitled', the description or 'No description', the image at the gateway under the cleaned id, and the timestamp times 1000 |
| Gallery.CollectKeepsOrder | src/pages/Gallery.jsx:60-87 | the k-th record is the one for the k-th hash whose fetch succeeded, in hash order; failed fetches are dropped |
| Gallery.CollectEmptyIff | src/pages/Gallery.jsx:80-87 | no record survives exactly when every detail fetch failed |
| Gallery.MockArtworksShape | src/pages/Gallery.jsx:105-147 | four sample records with distinct ids |
| Gallery.FetchOutcomeCases | src/pages/Gallery.jsx:38-102 | an unset address or a failed listing gives the samples and an error; an empty listing gives the samples and no error; the list ends empty exactly when every detail fetch failed |
| Gallery.FilterArtworksSpec | src/pages/Gallery.jsx:154-156 | the filter keeps exactly the records whose lower-cased title or description contains the lower-cased term, each as often as it occurs |
| Gallery.EmptyTermKeepsAll | src/pages/Gallery.jsx:154-156 | an empty search term keeps every record in order |
| Gallery.SortPermutes | src/pages/Gallery.jsx:157-166 | the sort returns a permutation of its input |
| Gallery.SortSorts | src/pages/Gallery.jsx:157-166 | the sort's output is ordered under the selected comparator |
| Gallery.SortStable | src/pages/Gallery.jsx:157-166 | the sort is stable, as `Array.prototype.sort` is: for every date, the records of that date appear in the same order before and after sorting |
| Gallery.UnsortedIsIdentity | src/pages/Gallery.jsx:163-164 | with a comparator that is always 0 the order is unchanged |
| Gallery.DisplayedSpec | src/pages/Gallery.jsx:154-166 | the list shown is a permutation of the filtered records; 'newest' orders by non-increasing and 'oldest' by non-decreasing timestamp; records of one date keep their filtered order; any other choice keeps the filtered order |
| Gallery.TruncateAddress | src/pages/Gallery.jsx:168-172 | 'Unknown' for a falsy address; one shorter than 10 is kept; otherwise 17 characters: the first 8, "...", and the last 6 |
| Gallery.FetchDetails | src/pages/Gallery.jsx:60-87 | the detail-fetch loop yields exactly `Collect` of the hashes |
| Gallery.GalleryPage.constructor | src/pages/Gallery.jsx:6-11 | no records, loading, no error |
| Gallery.GalleryPage.FetchAllArtworks | src/pages/Gallery.jsx:38-102 | the records and error equal `FetchOutcome`, and loading ends false |
| Dashboard.FetchAllSpec | src/pages/Dashboard.jsx:20-36 | the load succeeds exactly when every detail fetch does, and then holds one record per hash, in hash order, with timestamp = seconds times 1000 |
| Dashboard.FailureAborts | src/pages/Dashboard.jsx:22-34 | one failing fetch fails the whole load |
| Dashboard.TruncateHash | src/pages/Dashboard.jsx:50-52 | the first 10 characters, "...", and the last 8 |
| Dashboard.TruncateHashShape | src/pages/Dashboard.jsx:51 | a hash of at least 10 characters shows as 21 characters |
| Dashboard.ArtworkUrl | src/pages/Dashboard.jsx:205 | the gateway prefix followed by a suffix of the stored reference that contains no '/' and, unless it is the whole reference, follows a '/': its last '/' segment |
| Dashboard.LastSegmentOfGatewayUrl | src/pages/Dashboard.jsx:260 | the last segment of the gateway URL of an id without '/' is that id |
| Dashboard.ArtworkUrlOfUpload | src/pages/Dashboard.jsx:205 | a stored gateway URL and a bare id both link to the id's gateway URL, the same address as the gallery's image |
| Dashboard.ShownIsLatest | src/pages/Dashboard.jsx:139-142 | as written, the figure is the last record's date, which for records in registration order is the latest date |
| Dashboard.ShownFirstRegistrationExample | src/pages/Dashboard.jsx:139-142 | two registrations a day apart: the figure shows the second one |
| Dashboard.FirstRegistration | src/pages/Dashboard.jsx:139-142 | corrected figure: no date exactly for no records, otherwise one of the records' dates |
| Dashboard.FirstRegistrationIsEarliest | src/pages/Dashboard.jsx:139-142 | the corrected figure is the earliest date of records in registration order |
| Dashboard.FirstRegistrationOfLoad | src/pages/Dashboard.jsx:20-36 | after a load the corrected figure is the date of the first listed hash, and 'No artworks' when there is none |
| Dashboard.DashboardPage.constructor | src/pages/Dashboard.jsx:5-6 | no records, loading |
| Dashboard.DashboardPage.LoadUserArtworks | src/pages/Dashboard.jsx:15-42 | nothing happens without a contract and an account; otherwise the records become `LoadResult` on success, a failure keeps the old list, and `isLoading` ends false |
| Web3.CreateContractInstance | src/hooks/useWeb3.js:16-31 | fails with the configuration message exactly when the address is unset; otherwise binds the address to the signer |
| Web3.FirstAccount | src/hooks/useWeb3.js:52 | `accounts[0]` is defined exactly for a non-empty list |
| Web3.Establish | src/hooks/useWeb3.js:48-50 | the provider, signer and contract steps succeed exactly when the signer and the contract instance do |
| Web3.ConnectError | src/hooks/useWeb3.js:62-65 | code 4001 shows the please-connect text; any other error shows its message |
| Web3.InitialState | src/hooks/useWeb3.js:7-13 | everything null, not connected, not connecting |
| Web3.ConnectWithoutWallet | src/hooks/useWeb3.js:34-37 | without a wallet only the error changes, to the install message, and the promise resolves with null |
| Web3.ConnectSucceeds | src/hooks/useWeb3.js:44-59 | a connection succeeds exactly when the account request, the signer and the contract all do; then account = accounts[0] and every connection field is set together |
| Web3.ConnectFailureKeepsSession | src/hooks/useWeb3.js:60-69 | a failure rethrows, keeps every connection field, ends not connecting, and shows the message or the rejection text; an unset address is such a failure |
| Web3.DisconnectIdempotent | src/hooks/useWeb3.js:72-79 | disconnect clears account, provider, signer, contract and error and sets connected to false; a second disconnect changes nothing |
| Web3.EmptyAccountList | src/hooks/useWeb3.js:82-121 | the check with an empty account list changes nothing, and an accounts-changed event with an empty list disconnects |
| Web3.OperationsPreserveValid | src/hooks/useWeb3.js:33-121 | every operation keeps the invariant "connected implies provider, signer and contract set" |
| Web3.OperationsKeepAccount | src/hooks/useWeb3.js:52 | whenever the wallet answers the account request with at least one account, every operation keeps "connected implies account set"; an empty grant breaks it |
| Web3.Web3Session.constructor | src/hooks/useWeb3.js:7-13 | the initial state |
| Web3.Web3Session.ConnectWallet | src/hooks/useWeb3.js:33-70 | the new state and the promise outcome equal `Connect` |
| Web3.Web3Session.DisconnectWallet | src/hooks/useWeb3.js:72-80 | the new state equals `Disconnect` |
| Web3.Web3Session.CheckConnection | src/hooks/useWeb3.js:82-108 | the new state equals `Reconnect` |
| Web3.Web3Session.OnAccountsChanged | src/hooks/useWeb3.js:116-122 | the new state equals `AccountsChanged`: reconnect for a non-empty list, otherwise disconnect |
| Header.TruncateAddress | src/components/Layout/Header.jsx:17-20 | '' for a falsy address, otherwise the first 6 characters, "...", and the last 4 |
| Header.TruncateAddressLength | src/components/Layout/Header.jsx:19 | an address of at least 6 characters shows as 13 characters |
| Header.NavItemIds | src/components/Layout/Header.jsx:22-28 | the five buttons select home, gallery, register, verify and dashboard, each once |
| Header.HandleWalletAction | src/components/Layout/Header.jsx:30-36 | a connected session is disconnected; otherwise a connection is started |
| Header.WalletActionToggles | src/components/Layout/Header.jsx:30-36 | a press on a connected session disconnects; the next press connects exactly when every connection step succeeds |

## Left out

- Rendering, themes, the clipboard and timers are not modelled.
- The preview URL from `URL.createObjectURL` is a parameter.
- Home.jsx, App.jsx and DebugEnv.jsx are not part of this model. They are animation, routing and a debug panel.
- The `ethers` library, the contract ABI and the JSON-RPC provider are not modelled. The ledger is an oracle: for each call it says whether the call resolves (and with what) or throws.
- `getReadOnlyContract` is reduced to its one error branch, the unset address. Its missing-RPC-URL warning is not modelled.
- The pinning request (`fetch` with a multipart body) is not modelled. The service's answer is a parameter: pinned with an id, a status that is not ok, or a failed request.
- The SHA-256 computation is a parameter: any function from bytes to 32 bytes.
- The page models take the fingerprint function as a parameter `hash`, so their lemmas hold for any hash. Verify.VerifyAsksForCommittedHash instantiates both pages with `calculateSHA256`.
- Dafny strings are sequences of Unicode scalar values, while JavaScript strings are UTF-16 code units. `slice`, `indexOf` and lengths agree on the ASCII addresses, hashes and URLs they are applied to here.
- Gallery.FilterArtworksSpec: states which records are kept and how often, not that they keep their relative order.
- The `FileReader` is not modelled. A file carries either its bytes or the error event the reader fires.
- Environment variables are parameters, with "" standing for unset: the contract address and the pinning token.
- A missing `window.ethereum` is `None`.
- `Promise.all` runs the detail fetches concurrently. The model runs them one after another. The calls are reads, so the results and their order are the same.
- On Dashboard, the loop stops at the first failed fetch. The rejected `Promise.all` discards every result, so the outcome is the same.
- Dates are integer milliseconds. `toLocaleDateString` and `Number` conversion of very large ledger timestamps are not modelled.
- `toLowerCase` lowers the ASCII letters only. Other cased characters are kept, where JavaScript would lower them.
- A thrown value carries only its `message` and `code`.
- React re-renders, state batching and the `useEffect` triggers (on mount, and on account or contract change) are not modelled. Each handler is a method the caller invokes.
- `console` logging is not modelled.
- Registering the wallet listeners, removing them, and the page reload on `chainChanged` are not modelled. The accounts-changed listener itself is modelled.
- A `getAllArtworks` answer of `null` is not modelled. The ledger oracle always answers with a list; the empty list is modelled.
- Web3.OperationsKeepAccount: "connected implies an account is set" is proved only for wallets that grant at least one account, as EIP-1102 requires. `connectWallet` stores `accounts[0]` without checking it, so an empty grant gives a connected session with no account. The lemma shows that case too.
- Header.HandleWalletAction: the promise returned by `connectWallet` is not awaited, so a failed connection's rejection goes unhandled. The model captures the state change but not the unhandled rejection.

## Findings

| source | as written | input that shows it | evidently intended | confidence | as-written member | corrected member |
|---|---|---|---|---|---|---|
| src/pages/Dashboard.jsx:139-142 | "First Registration" shows the date of the last element of the loaded list | an owner with two records registered at 1705276800 s and 1705363200 s, listed in registration order: the card shows the second, later date | the date of the owner's first (earliest) registration, the first element | medium (assumes the ledger lists an owner's hashes in registration order); not executed | Dashboard.ShownIsLatest | Dashboard.FirstRegistrationIsEarliest |
