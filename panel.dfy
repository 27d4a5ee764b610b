/** The paged voting panel: one page per category, holding a vote control
    per option of that category, "previous" and "next" controls where there
    is a page to go to, and the remaining-votes control last. */
module Panel {
  import opened Dicts
  import opened Catalog
  import opened VoteKeys

  datatype Control =
    | VoteControl(category: string, option: string)
    | PrevControl
    | NextControl
    | RemainingControl

  /** The number of pages: one per category. */
  function PageCount(): nat
  {
    |CategoryNames|
  }

  /** One vote control per option, in catalog order. */
  function VoteControls(category: string, options: seq<string>): seq<Control>
  {
    seq(|options|, i requires 0 <= i < |options| => VoteControl(category, options[i]))
  }

  /** The vote controls followed by "previous" and "next" where present,
      and the remaining-votes control. */
  function Layout(votes: seq<Control>, hasPrev: bool, hasNext: bool): seq<Control>
  {
    votes
      + (if hasPrev then [PrevControl] else [])
      + (if hasNext then [NextControl] else [])
      + [RemainingControl]
  }

  /** The controls of page `page`, in the order `create_buttons` adds them. */
  function PanelFor(page: int): seq<Control>
    requires 0 <= page < PageCount()
  {
    var category := CategoryNames[page];
    Layout(VoteControls(category, OptionsOf(category)), page > 0, page < PageCount() - 1)
  }

  /** The layout starts with the vote controls and holds no other vote
      control, holds "previous" and "next" exactly when asked to, and ends
      with its one remaining-votes control. */
  lemma LayoutContents(votes: seq<Control>, hasPrev: bool, hasNext: bool)
    requires forall i :: 0 <= i < |votes| ==> votes[i].VoteControl?
    ensures var panel := Layout(votes, hasPrev, hasNext);
      && |panel| == |votes| + (if hasPrev then 1 else 0) + (if hasNext then 1 else 0) + 1
      && panel[..|votes|] == votes
      && (forall i :: |votes| <= i < |panel| ==> !panel[i].VoteControl?)
      && (PrevControl in panel <==> hasPrev)
      && (NextControl in panel <==> hasNext)
      && panel[|panel| - 1] == RemainingControl
      && (forall i :: 0 <= i < |panel| - 1 ==> panel[i] != RemainingControl)
  {
    var panel := Layout(votes, hasPrev, hasNext);
    var tail := (if hasPrev then [PrevControl] else []) + (if hasNext then [NextControl] else []);
    assert panel == votes + tail + [RemainingControl];
    assert PrevControl !in votes;
    assert NextControl !in votes;
    forall i | 0 <= i < |panel| - 1 ensures panel[i] != RemainingControl {
      if i >= |votes| {
        assert panel[i] == tail[i - |votes|];
      }
    }
  }

  /** A page lists its category's options as vote controls, in catalog order,
      and no other vote control; then "previous" exactly when it is not the
      first page, then "next" exactly when it is not the last; and it ends
      with the remaining-votes control, which it holds once. */
  lemma PanelContents(page: int)
    requires 0 <= page < PageCount()
    ensures var panel := PanelFor(page);
      var options := OptionsOf(CategoryNames[page]);
      && |panel| == |options| + (if page > 0 then 1 else 0) + (if page < PageCount() - 1 then 1 else 0) + 1
      && (forall i :: 0 <= i < |options| ==> panel[i] == VoteControl(CategoryNames[page], options[i]))
      && (forall i :: |options| <= i < |panel| ==> !panel[i].VoteControl?)
      && (PrevControl in panel <==> page > 0)
      && (NextControl in panel <==> page < PageCount() - 1)
      && panel[|panel| - 1] == RemainingControl
      && (forall i :: 0 <= i < |panel| - 1 ==> panel[i] != RemainingControl)
  {
    var category := CategoryNames[page];
    var votes := VoteControls(category, OptionsOf(category));
    LayoutContents(votes, page > 0, page < PageCount() - 1);
    var panel := PanelFor(page);
    forall i | 0 <= i < |votes| ensures panel[i] == votes[i] {
      assert panel[..|votes|][i] == votes[i];
    }
  }

  /** Every vote control of a page belongs to that page's category and to
      its option list, and the key it records splits back into exactly its
      category and option. */
  lemma PanelVoteKeys(page: int, i: nat)
    requires 0 <= page < PageCount()
    requires i < |PanelFor(page)| && PanelFor(page)[i].VoteControl?
    ensures var c := PanelFor(page)[i];
      && c.category == CategoryNames[page]
      && c.option in OptionsOf(c.category)
      && SplitKey(MakeKey(c.category, c.option)) == (c.category, c.option)
  {
    var category := CategoryNames[page];
    var votes := VoteControls(category, OptionsOf(category));
    PanelContents(page);
    CatalogShape();
    SplitMakeKey(category, PanelFor(page)[i].option);
  }

  /** The page shown after pressing control `c` on page `page`: "previous" and
      "next" move one page, any other control keeps the page; a control the
      page does not hold cannot be pressed. */
  function Press(page: int, c: Control): Option<int>
    requires 0 <= page < PageCount()
  {
    if c !in PanelFor(page) then None
    else match c
      case PrevControl => Some(page - 1)
      case NextControl => Some(page + 1)
      case _ => Some(page)
  }

  /** The page reached by pressing `presses` in turn, starting from `page`. */
  function Walk(page: int, presses: seq<Control>): Option<int>
    requires 0 <= page < PageCount()
    decreases |presses|
  {
    if presses == [] then Some(page)
    else match Press(page, presses[0])
      case None => None
      case Some(p) =>
        PressInRange(page, presses[0]);
        Walk(p, presses[1..])
  }

  /** Pressing a control keeps the panel on an existing page. */
  lemma PressInRange(page: int, c: Control)
    requires 0 <= page < PageCount()
    requires Press(page, c).Some?
    ensures 0 <= Press(page, c).value < PageCount()
  {
    PanelContents(page);
  }

  /** "Previous" moves back a page and "next" forward a page, each only
      where the page offers it. */
  lemma PressTurns(page: int)
    requires 0 <= page < PageCount()
    ensures Press(page, PrevControl) == if page > 0 then Some(page - 1) else None
    ensures Press(page, NextControl) == if page < PageCount() - 1 then Some(page + 1) else None
  {
    PanelContents(page);
  }

  /** Any sequence of presses that can be carried out ends on an existing
      page: no page index ever leaves the catalog. */
  lemma {:induction false} WalkInRange(page: int, presses: seq<Control>)
    requires 0 <= page < PageCount()
    requires Walk(page, presses).Some?
    ensures 0 <= Walk(page, presses).value < PageCount()
    decreases |presses|
  {
    if presses != [] {
      PressInRange(page, presses[0]);
      WalkInRange(Press(page, presses[0]).value, presses[1..]);
    }
  }

  /** A walk whose first press succeeds continues from the page it shows. */
  lemma WalkStep(page: int, presses: seq<Control>, next: int)
    requires 0 <= page < PageCount() && 0 <= next < PageCount()
    requires presses != [] && Press(page, presses[0]) == Some(next)
    ensures Walk(page, presses) == Walk(next, presses[1..])
  {
  }

  /** "Next" then "previous" comes back to the page it started from. */
  lemma NextThenPrev(page: int)
    requires 0 <= page < PageCount() - 1
    ensures Walk(page, [NextControl, PrevControl]) == Some(page)
  {
    PressTurns(page);
    PressTurns(page + 1);
    WalkStep(page, [NextControl, PrevControl], page + 1);
    WalkStep(page + 1, [PrevControl], page);
  }

  /** "Previous" then "next" comes back to the page it started from. */
  lemma PrevThenNext(page: int)
    requires 0 < page < PageCount()
    ensures Walk(page, [PrevControl, NextControl]) == Some(page)
  {
    PressTurns(page);
    PressTurns(page - 1);
    WalkStep(page, [PrevControl, NextControl], page - 1);
    WalkStep(page - 1, [NextControl], page);
  }

  /** `n` presses of "next". */
  function Nexts(n: nat): seq<Control>
  {
    seq(n, _ => NextControl)
  }

  /** From page `page`, pressing "next" `n` times reaches page `page + n`,
      as long as that page exists. */
  lemma {:induction false} NextsReach(page: int, n: nat)
    requires 0 <= page && page + n < PageCount()
    ensures Walk(page, Nexts(n)) == Some(page + n)
    decreases n
  {
    if n > 0 {
      PressTurns(page);
      assert Nexts(n)[1..] == Nexts(n - 1);
      WalkStep(page, Nexts(n), page + 1);
      NextsReach(page + 1, n - 1);
    }
  }

  /** Every page can be reached from the first page the vote command shows. */
  lemma EveryPageReachable(page: int)
    requires 0 <= page < PageCount()
    ensures Walk(0, Nexts(page)) == Some(page)
  {
    NextsReach(0, page);
  }

  /** The `VoteView`: a page number and the controls shown for it. */
  class VoteView {
    var page: int
    var items: seq<Control>

    ghost predicate Valid()
      reads this
    {
      0 <= page < PageCount() && items == PanelFor(page)
    }

    /** `VoteView(page)`: records the page and builds its controls. */
    constructor (page: int)
      requires 0 <= page < PageCount()
      ensures Valid() && this.page == page
    {
      this.page := page;
      items := [];
      new;
      CreateButtons();
    }

    /** `create_buttons`: clears the controls and adds the page's ones. */
    method CreateButtons()
      requires 0 <= page < PageCount()
      modifies this`items
      ensures items == PanelFor(page)
    {
      items := [];
      var category := CategoryNames[page];
      var options := OptionsOf(category);
      var i := 0;
      while i < |options|
        invariant 0 <= i <= |options|
        invariant items == VoteControls(category, options[..i])
      {
        items := items + [VoteControl(category, options[i])];
        i := i + 1;
      }
      assert options[..i] == options;
      ghost var votes := items;
      assert votes == VoteControls(category, options);
      if page > 0 {
        items := items + [PrevControl];
      }
      if page < PageCount() - 1 {
        items := items + [NextControl];
      }
      items := items + [RemainingControl];
      assert items == Layout(votes, page > 0, page < PageCount() - 1);
    }

    /** The "previous" control's handler: a view of the page before. */
    method OnPrev() returns (view: VoteView)
      requires Valid() && PrevControl in items
      ensures fresh(view) && view.Valid()
      ensures Some(view.page) == Press(page, PrevControl)
    {
      PanelContents(page);
      view := new VoteView(page - 1);
    }

    /** The "next" control's handler: a view of the page after. */
    method OnNext() returns (view: VoteView)
      requires Valid() && NextControl in items
      ensures fresh(view) && view.Valid()
      ensures Some(view.page) == Press(page, NextControl)
    {
      PanelContents(page);
      view := new VoteView(page + 1);
    }
  }

  /** The vote command's view: the first page. */
  method StartVote() returns (view: VoteView)
    ensures fresh(view) && view.Valid() && view.page == 0
  {
    CatalogShape();
    view := new VoteView(0);
  }
}
