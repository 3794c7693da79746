/**
 * The dock of buddy avatars. A click on a buddy opens its window; when another
 * buddy is current the user is asked whether to switch, and a "Yes" closes the
 * current buddy's window and leaves the clicked buddy as the only open one.
 * The user's answer is an input, and the window manager's calls are returned
 * as effects.
 */
module Dock {

  import opened Options
  import opened Buddies

  /** The dock's two bindings that a click changes. */
  datatype DockState = DockState(openBuddies: set<string>, currentBuddyID: Option<string>)

  /** A call of the window manager. */
  datatype WindowEffect = CloseWindow(buddyID: string) | OpenWindow(buddy: Buddy)

  /** The dock after a click, whether the switch question was asked, and the window calls made. */
  datatype ClickResult = ClickResult(state: DockState, prompted: bool, effects: seq<WindowEffect>)

  /** A buddy's avatar is in the dock when its window is not open, or when the dock is expanded. */
  predicate Shows(openBuddies: set<string>, expanded: bool, buddyID: string)
    ensures expanded ==> Shows(openBuddies, expanded, buddyID)
    ensures !expanded ==> (Shows(openBuddies, expanded, buddyID) <==> buddyID !in openBuddies)
  {
    buddyID !in openBuddies || expanded
  }

  /** The buddies the dock lists, in directory order. */
  function ShownBuddies(buddies: seq<Buddy>, openBuddies: set<string>, expanded: bool): (r: seq<Buddy>)
    ensures |r| <= |buddies|
    ensures forall b :: b in r <==> b in buddies && Shows(openBuddies, expanded, b.id)
    ensures expanded ==> r == buddies
  {
    if buddies == [] then []
    else
      var rest := ShownBuddies(buddies[1..], openBuddies, expanded);
      if Shows(openBuddies, expanded, buddies[0].id) then [buddies[0]] + rest else rest
  }

  /** Listing keeps the directory order: the list of a concatenation is the concatenation of the lists. */
  lemma {:induction false} ShownBuddiesAppend(a: seq<Buddy>, b: seq<Buddy>, openBuddies: set<string>, expanded: bool)
    ensures ShownBuddies(a + b, openBuddies, expanded) == ShownBuddies(a, openBuddies, expanded) + ShownBuddies(b, openBuddies, expanded)
  {
    if a == [] {
      assert a + b == b;
    } else {
      assert (a + b)[1..] == a[1..] + b;
      ShownBuddiesAppend(a[1..], b, openBuddies, expanded);
    }
  }

  /** `handleBuddyClick`, with `confirmSwitch` the answer to the switch question. */
  function HandleClick(st: DockState, buddy: Buddy, confirmSwitch: bool): (r: ClickResult)
    ensures buddy.id in r.state.openBuddies
    ensures r.state.currentBuddyID.Some?
    ensures r.prompted <==> st.currentBuddyID.Some? && st.currentBuddyID.value != buddy.id
    ensures !r.prompted ==>
      && r.state == DockState(st.openBuddies + {buddy.id}, Some(buddy.id))
      && r.effects == [OpenWindow(buddy)]
    ensures r.prompted && confirmSwitch ==>
      && r.state == DockState({buddy.id}, Some(buddy.id))
      && r.effects == [CloseWindow(st.currentBuddyID.value), OpenWindow(buddy)]
    ensures r.prompted && !confirmSwitch ==>
      && r.state == DockState(st.openBuddies + {buddy.id}, st.currentBuddyID)
      && r.effects == [OpenWindow(buddy)]
    ensures !(r.prompted && confirmSwitch) ==> st.openBuddies <= r.state.openBuddies
  {
    if st.currentBuddyID.Some? && st.currentBuddyID.value != buddy.id then
      var currentID := st.currentBuddyID.value;
      if confirmSwitch then
        ClickResult(DockState({buddy.id}, Some(buddy.id)), true, [CloseWindow(currentID), OpenWindow(buddy)])
      else
        ClickResult(st.(openBuddies := st.openBuddies + {buddy.id}), true, [OpenWindow(buddy)])
    else
      ClickResult(DockState(st.openBuddies + {buddy.id}, Some(buddy.id)), false, [OpenWindow(buddy)])
  }

  /** The current buddy, when there is one, is open. */
  predicate CurrentIsOpen(st: DockState) {
    st.currentBuddyID.Some? ==> st.currentBuddyID.value in st.openBuddies
  }

  /** Every click keeps the current buddy open. */
  lemma ClickKeepsCurrentOpen(st: DockState, buddy: Buddy, confirmSwitch: bool)
    requires CurrentIsOpen(st)
    ensures CurrentIsOpen(HandleClick(st, buddy, confirmSwitch).state)
  {
  }

  /** A clicked buddy leaves the collapsed dock. */
  lemma ClickHidesClicked(st: DockState, buddy: Buddy, confirmSwitch: bool, buddies: seq<Buddy>)
    ensures buddy !in ShownBuddies(buddies, HandleClick(st, buddy, confirmSwitch).state.openBuddies, false)
  {
  }

  /** Clicking the current buddy again changes neither binding and asks nothing. */
  lemma ClickCurrentAgain(st: DockState, buddy: Buddy, confirmSwitch: bool)
    requires st.currentBuddyID == Some(buddy.id) && buddy.id in st.openBuddies
    ensures var r := HandleClick(st, buddy, confirmSwitch); r.state == st && !r.prompted
  {
  }

  /** The dock view and its bindings. */
  class BuddyDock {
    const buddies: seq<Buddy>
    var openBuddies: set<string>
    var currentBuddyID: Option<string>
    var expanded: bool

    function State(): DockState
      reads this
    {
      DockState(openBuddies, currentBuddyID)
    }

    constructor (buddies: seq<Buddy>, openBuddies: set<string>, currentBuddyID: Option<string>, expanded: bool)
      ensures this.buddies == buddies && State() == DockState(openBuddies, currentBuddyID) && this.expanded == expanded
    {
      this.buddies := buddies;
      this.openBuddies := openBuddies;
      this.currentBuddyID := currentBuddyID;
      this.expanded := expanded;
    }

    /** The avatars the dock lists now. */
    function Shown(): (shown: seq<Buddy>)
      reads this
      ensures forall b :: b in shown <==> b in buddies && (b.id !in openBuddies || expanded)
      ensures expanded ==> shown == buddies
    {
      ShownBuddies(buddies, openBuddies, expanded)
    }

    method HandleBuddyClick(buddy: Buddy, confirmSwitch: bool) returns (prompted: bool, effects: seq<WindowEffect>)
      modifies this`openBuddies, this`currentBuddyID
      ensures ClickResult(State(), prompted, effects) == HandleClick(old(State()), buddy, confirmSwitch)
    {
      if currentBuddyID.Some? && currentBuddyID.value != buddy.id {
        var currentID := currentBuddyID.value;
        prompted := true;
        if confirmSwitch {
          effects := [CloseWindow(currentID), OpenWindow(buddy)];
          currentBuddyID := Some(buddy.id);
          openBuddies := {buddy.id};
        } else {
          effects := [OpenWindow(buddy)];
          openBuddies := openBuddies + {buddy.id};
        }
      } else {
        prompted := false;
        effects := [OpenWindow(buddy)];
        openBuddies := openBuddies + {buddy.id};
        currentBuddyID := Some(buddy.id);
      }
    }

    /** The expand/collapse button. */
    method ToggleExpanded()
      modifies this`expanded
      ensures expanded == !old(expanded)
    {
      expanded := !expanded;
    }
  }
}
