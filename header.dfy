/** The page header (Header.jsx): the shortened account display, the
    navigation items and the wallet button. */
module Header {
  import opened Wrappers
  import opened Js
  import Web3

  /** `truncateAddress` in the header: '' for a missing or empty address,
      otherwise the first 6 characters, "...", and the last 4. */
  function TruncateAddress(addr: Option<string>): (r: string)
    ensures !Truthy(addr) ==> r == ""
    ensures Truthy(addr) ==>
      var a := addr.value;
      r == a[..Min(6, |a|)] + "..." + a[|a| - Min(4, |a|)..]
  {
    if !Truthy(addr) then ""
    else
      SliceHead(addr.value, 6);
      SliceTail(addr.value, 4);
      Slice(addr.value, 0, 6) + "..." + SliceFrom(addr.value, -4)
  }

  /** An address of at least 6 characters shows as 13 characters keeping
      its first 6 and last 4. */
  lemma TruncateAddressLength(addr: string)
    requires |addr| >= 6
    ensures var r := TruncateAddress(Some(addr));
      |r| == 13 && r[..6] == addr[..6] && r[6..9] == "..." && r[9..] == addr[|addr| - 4..]
  {
  }

  /** A navigation button: the page it selects and its caption. */
  datatype NavItem = NavItem(id: string, caption: string)

  function NavItems(): seq<NavItem> {
    [ NavItem("home", "Home"), NavItem("gallery", "Gallery"), NavItem("register", "Register"),
      NavItem("verify", "Verify"), NavItem("dashboard", "Dashboard") ]
  }

  /** The buttons select the five pages, each once. */
  lemma NavItemIds()
    ensures |NavItems()| == 5
    ensures NavItems()[0].id == "home" && NavItems()[1].id == "gallery" && NavItems()[2].id == "register"
    ensures NavItems()[3].id == "verify" && NavItems()[4].id == "dashboard"
    ensures forall i, j :: 0 <= i < j < |NavItems()| ==> NavItems()[i].id != NavItems()[j].id
  {
    var s := NavItems();
    forall i, j | 0 <= i < j < 5
      ensures s[i].id != s[j].id
    {
      assert s[i].id[0] != s[j].id[0] || |s[i].id| != |s[j].id|;
    }
  }

  /** `handleWalletAction`: disconnects a connected session and otherwise
      starts a connection, whose outcome the header does not wait for. */
  method HandleWalletAction(session: Web3.Web3Session, wallet: Option<Web3.Wallet>, contractAddress: string)
    modifies session
    ensures old(session.isConnected) ==> session.State() == Web3.Disconnect(old(session.State()))
    ensures !old(session.isConnected) ==>
      session.State() == Web3.Connect(old(session.State()), wallet, contractAddress).session
  {
    if session.isConnected {
      session.DisconnectWallet();
    } else {
      var _ := session.ConnectWallet(wallet, contractAddress);
    }
  }

  /** The button toggles: from a connected session it disconnects, and a
      second press then connects again. */
  lemma WalletActionToggles(s: Web3.Session, wallet: Option<Web3.Wallet>, contractAddress: string)
    requires s.isConnected
    ensures !Web3.Disconnect(s).isConnected
    ensures var t := Web3.Connect(Web3.Disconnect(s), wallet, contractAddress).session;
      t.isConnected <==>
        wallet.Some? && wallet.value.requestAccounts.Success? && wallet.value.getSigner.Success?
        && contractAddress != ""
  {
    if wallet.Some? {
      Web3.ConnectSucceeds(Web3.Disconnect(s), wallet.value, contractAddress);
    }
  }
}
