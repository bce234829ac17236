/** The modal counter of client/src/context/ModalContext.js: `openModal` and
    `closeModal` move a count of open modals up and down, and an effect marks
    the application root inert exactly while the count is positive. The count
    has no lower bound, so an unmatched close drives it below zero. */
module ModalContext {

  /** One call through the context. */
  datatype Action = OpenModal | CloseModal

  /** The root's `inert` attribute as the effect leaves it for a count. */
  predicate Inert(modalCount: int) {
    modalCount > 0
  }

  /** The count after one call: `prev + 1` or `prev - 1`, unguarded. */
  function Step(modalCount: int, a: Action): (r: int)
    ensures a == OpenModal ==> r == modalCount + 1
    ensures a == CloseModal ==> r == modalCount - 1
  {
    match a
    case OpenModal => modalCount + 1
    case CloseModal => modalCount - 1
  }

  /** The count after a run of calls. */
  function Run(modalCount: int, actions: seq<Action>): int
    decreases |actions|
  {
    if actions == [] then modalCount else Run(Step(modalCount, actions[0]), actions[1..])
  }

  /** Opens minus closes. */
  function Net(actions: seq<Action>): (n: int)
    ensures -|actions| <= n <= |actions|
    decreases |actions|
  {
    if actions == [] then 0
    else (if actions[0] == OpenModal then 1 else -1) + Net(actions[1..])
  }

  /** A run moves the count by exactly its opens minus its closes. */
  lemma {:induction false} RunIsNet(modalCount: int, actions: seq<Action>)
    ensures Run(modalCount, actions) == modalCount + Net(actions)
    decreases |actions|
  {
    if actions != [] {
      RunIsNet(Step(modalCount, actions[0]), actions[1..]);
    }
  }

  /** Running two lists of calls is running the first, then the second. */
  lemma {:induction false} RunAppend(modalCount: int, xs: seq<Action>, ys: seq<Action>)
    ensures Run(modalCount, xs + ys) == Run(Run(modalCount, xs), ys)
    decreases |xs|
  {
    if xs == [] {
      assert xs + ys == ys;
    } else {
      assert (xs + ys)[0] == xs[0] && (xs + ys)[1..] == xs[1..] + ys;
      RunAppend(Step(modalCount, xs[0]), xs[1..], ys);
    }
  }

  /** A modal opened around any run of calls and then closed leaves the count
      where that run alone leaves it: nested opens need matching closes. */
  lemma OpenCloseRestores(modalCount: int, inner: seq<Action>)
    ensures Run(modalCount, [OpenModal] + inner + [CloseModal]) == Run(modalCount, inner)
  {
    RunIsNet(modalCount, [OpenModal] + inner + [CloseModal]);
    RunIsNet(modalCount, inner);
    NetAppend([OpenModal], inner + [CloseModal]);
    NetAppend(inner, [CloseModal]);
    assert [OpenModal] + inner + [CloseModal] == [OpenModal] + (inner + [CloseModal]);
  }

  lemma {:induction false} NetAppend(xs: seq<Action>, ys: seq<Action>)
    ensures Net(xs + ys) == Net(xs) + Net(ys)
    decreases |xs|
  {
    if xs == [] {
      assert xs + ys == ys;
    } else {
      assert (xs + ys)[1..] == xs[1..] + ys;
      NetAppend(xs[1..], ys);
    }
  }

  /** Starting with no modal open, the root is inert exactly when more modals
      have been opened than closed. */
  lemma InertIffMoreOpens(actions: seq<Action>)
    ensures Inert(Run(0, actions)) <==> Net(actions) > 0
  {
    RunIsNet(0, actions);
  }

  /** Without the guard, one close too many leaves the count at -1, and the
      next modal then opens with the root not inert. */
  lemma ExtraCloseLeavesRootLive()
    ensures Run(0, [OpenModal, CloseModal, CloseModal]) == -1
    ensures !Inert(Run(0, [OpenModal, CloseModal, CloseModal, OpenModal]))
  {
  }

  /** The provider's state: the count and the root's `inert` attribute. */
  class ModalProvider {
    var modalCount: int
    var inert: bool

    /** The effect has run for the current count. */
    predicate Valid()
      reads this
    {
      inert == Inert(modalCount)
    }

    /** `useState(0)`, then the first run of the effect. */
    constructor()
      ensures modalCount == 0 && !inert && Valid()
    {
      modalCount := 0;
      inert := false;
    }

    /** The effect on `[modalCount]`: set or remove `inert`. */
    method SyncRoot()
      modifies this
      ensures modalCount == old(modalCount) && Valid()
    {
      if modalCount > 0 {
        inert := true;
      } else {
        inert := false;
      }
    }

    method Open()
      modifies this
      ensures modalCount == old(modalCount) + 1 && Valid()
    {
      modalCount := modalCount + 1;
      SyncRoot();
    }

    method Close()
      modifies this
      ensures modalCount == old(modalCount) - 1 && Valid()
    {
      modalCount := modalCount - 1;
      SyncRoot();
    }

    /** A run of calls, one after another, each followed by its effect. */
    method Dispatch(actions: seq<Action>)
      modifies this
      ensures modalCount == Run(old(modalCount), actions) && Valid()
    {
      ghost var start := modalCount;
      SyncRoot();
      for k := 0 to |actions|
        invariant Valid()
        invariant Run(start, actions) == Run(modalCount, actions[k..])
      {
        assert actions[k..][1..] == actions[k + 1..];
        if actions[k] == OpenModal {
          Open();
        } else {
          Close();
        }
      }
    }
  }
}
