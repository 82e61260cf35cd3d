/** The client-side application store (src/stores/useAppStore.ts): one object
    whose fields the actions replace. */
module AppStore {
  import opened Common

  datatype Theme = Dark | Light

  /** `toggleTheme`'s new value: dark and light swap. */
  function Toggled(t: Theme): (r: Theme)
    ensures r != t
  {
    if t == Dark then Light else Dark
  }

  /** Toggling twice restores the theme. */
  lemma ToggleTwice(t: Theme)
    ensures Toggled(Toggled(t)) == t
  {
  }

  /** `address || null`: a missing or empty address is stored as null. */
  function StoredAddress(address: Option<string>): (r: Option<string>)
    ensures r.None? <==> address.None? || address.value == ""
    ensures r.Some? ==> r == address
  {
    if address.None? || address.value == "" then None else address
  }

  /** The ticket count after `useSpinnerTicket`: one fewer, never below zero. */
  function AfterUse(tickets: int): (r: int)
    ensures r >= 0
    ensures tickets >= 1 ==> r == tickets - 1
    ensures tickets <= 0 ==> r == 0
  {
    if tickets - 1 > 0 then tickets - 1 else 0
  }

  /** `useSpinnerTicket` called `k` times in a row. */
  function AfterUses(tickets: int, k: nat): int
    decreases k
  {
    if k == 0 then tickets else AfterUses(AfterUse(tickets), k - 1)
  }

  /** Using `k` tickets in a row from a non-negative count leaves `max(0, tickets - k)`. */
  lemma {:induction false} UsesFloorAtZero(tickets: int, k: nat)
    requires tickets >= 0
    ensures AfterUses(tickets, k) == if tickets >= k then tickets - k else 0
    decreases k
  {
    if k > 0 {
      UsesFloorAtZero(AfterUse(tickets), k - 1);
    }
  }

  class Store {
    var activeTab: string
    var isConnected: bool
    var walletAddress: Option<string>
    var spinnerTickets: int
    var isMiniApp: Option<bool>
    var isLoading: bool
    var theme: Theme
    var selectedGiftCardCategory: string
    var userXP: int
    var userScore: int

    /** The initial state. */
    constructor ()
      ensures activeTab == "home" && !isConnected && walletAddress.None?
      ensures spinnerTickets == 3 && isMiniApp.None? && isLoading
      ensures theme == Dark && selectedGiftCardCategory == "all"
      ensures userXP == 0 && userScore == 0
    {
      activeTab := "home";
      isConnected := false;
      walletAddress := None;
      spinnerTickets := 3;
      isMiniApp := None;
      isLoading := true;
      theme := Dark;
      selectedGiftCardCategory := "all";
      userXP := 0;
      userScore := 0;
    }

    method SetActiveTab(tab: string)
      modifies this
      ensures activeTab == tab
      ensures isConnected == old(isConnected) && walletAddress == old(walletAddress)
      ensures spinnerTickets == old(spinnerTickets) && isMiniApp == old(isMiniApp) && isLoading == old(isLoading)
      ensures theme == old(theme) && selectedGiftCardCategory == old(selectedGiftCardCategory)
      ensures userXP == old(userXP) && userScore == old(userScore)
    {
      activeTab := tab;
    }

    method SetWalletInfo(connected: bool, address: Option<string>)
      modifies this
      ensures isConnected == connected && walletAddress == StoredAddress(address)
      ensures activeTab == old(activeTab)
      ensures spinnerTickets == old(spinnerTickets) && isMiniApp == old(isMiniApp) && isLoading == old(isLoading)
      ensures theme == old(theme) && selectedGiftCardCategory == old(selectedGiftCardCategory)
      ensures userXP == old(userXP) && userScore == old(userScore)
    {
      isConnected := connected;
      walletAddress := StoredAddress(address);
    }

    method AddSpinnerTickets(count: int)
      modifies this
      ensures spinnerTickets == old(spinnerTickets) + count
      ensures activeTab == old(activeTab) && isConnected == old(isConnected) && walletAddress == old(walletAddress)
      ensures isMiniApp == old(isMiniApp) && isLoading == old(isLoading)
      ensures theme == old(theme) && selectedGiftCardCategory == old(selectedGiftCardCategory)
      ensures userXP == old(userXP) && userScore == old(userScore)
    {
      spinnerTickets := spinnerTickets + count;
    }

    method UseSpinnerTicket()
      modifies this
      ensures spinnerTickets == AfterUse(old(spinnerTickets))
      ensures activeTab == old(activeTab) && isConnected == old(isConnected) && walletAddress == old(walletAddress)
      ensures isMiniApp == old(isMiniApp) && isLoading == old(isLoading)
      ensures theme == old(theme) && selectedGiftCardCategory == old(selectedGiftCardCategory)
      ensures userXP == old(userXP) && userScore == old(userScore)
    {
      spinnerTickets := AfterUse(spinnerTickets);
    }

    method SetMiniAppStatus(miniApp: bool, loading: bool)
      modifies this
      ensures isMiniApp == Some(miniApp) && isLoading == loading
      ensures activeTab == old(activeTab) && isConnected == old(isConnected) && walletAddress == old(walletAddress)
      ensures spinnerTickets == old(spinnerTickets)
      ensures theme == old(theme) && selectedGiftCardCategory == old(selectedGiftCardCategory)
      ensures userXP == old(userXP) && userScore == old(userScore)
    {
      isMiniApp := Some(miniApp);
      isLoading := loading;
    }

    method ToggleTheme()
      modifies this
      ensures theme == Toggled(old(theme))
      ensures activeTab == old(activeTab) && isConnected == old(isConnected) && walletAddress == old(walletAddress)
      ensures spinnerTickets == old(spinnerTickets) && isMiniApp == old(isMiniApp) && isLoading == old(isLoading)
      ensures selectedGiftCardCategory == old(selectedGiftCardCategory)
      ensures userXP == old(userXP) && userScore == old(userScore)
    {
      theme := Toggled(theme);
    }

    method SetGiftCardCategory(category: string)
      modifies this
      ensures selectedGiftCardCategory == category
      ensures activeTab == old(activeTab) && isConnected == old(isConnected) && walletAddress == old(walletAddress)
      ensures spinnerTickets == old(spinnerTickets) && isMiniApp == old(isMiniApp) && isLoading == old(isLoading)
      ensures theme == old(theme)
      ensures userXP == old(userXP) && userScore == old(userScore)
    {
      selectedGiftCardCategory := category;
    }

    method AddXP(amount: int)
      modifies this
      ensures userXP == old(userXP) + amount && userScore == old(userScore)
      ensures activeTab == old(activeTab) && isConnected == old(isConnected) && walletAddress == old(walletAddress)
      ensures spinnerTickets == old(spinnerTickets) && isMiniApp == old(isMiniApp) && isLoading == old(isLoading)
      ensures theme == old(theme) && selectedGiftCardCategory == old(selectedGiftCardCategory)
    {
      userXP := userXP + amount;
    }

    method AddScore(amount: int)
      modifies this
      ensures userScore == old(userScore) + amount && userXP == old(userXP)
      ensures activeTab == old(activeTab) && isConnected == old(isConnected) && walletAddress == old(walletAddress)
      ensures spinnerTickets == old(spinnerTickets) && isMiniApp == old(isMiniApp) && isLoading == old(isLoading)
      ensures theme == old(theme) && selectedGiftCardCategory == old(selectedGiftCardCategory)
    {
      userScore := userScore + amount;
    }
  }
}
