/** The image accordion of src/components/webCom/test-imgs.ts: a list of
    items of which a click opens one and closes the rest. An item is
    identified by its index in the list. */
module Accordion {

  datatype ImgItem = ImgItem(src: string, test: string, isOpen: bool)

  /** The component's state: the `_canRecovery` flag and the item list. */
  datatype TestImgs = TestImgs(canRecovery: bool, imgs: seq<ImgItem>)

  /** No two items are open at once. */
  predicate AtMostOneOpen(items: seq<ImgItem>) {
    forall a, b :: 0 <= a < |items| && 0 <= b < |items| && items[a].isOpen && items[b].isOpen ==> a == b
  }

  /** The number of open items. */
  function OpenCount(items: seq<ImgItem>): nat {
    if items == [] then 0 else (if items[0].isOpen then 1 else 0) + OpenCount(items[1..])
  }

  /** A click on an open item is ignored unless recovery is enabled. */
  predicate Ignored(t: TestImgs, k: int)
    requires 0 <= k < |t.imgs|
  {
    t.imgs[k].isOpen && !t.canRecovery
  }

  /** `toggleOpen` for the item at index `k`. When the click is ignored
      nothing changes; otherwise item `k` flips and every other item closes.
      Sources and captions never change. */
  function ToggleOpen(t: TestImgs, k: int): (r: TestImgs)
    requires 0 <= k < |t.imgs|
    ensures r.canRecovery == t.canRecovery && |r.imgs| == |t.imgs|
    ensures Ignored(t, k) ==> r == t
    ensures !Ignored(t, k) ==> r.imgs[k].isOpen == !t.imgs[k].isOpen
    ensures !Ignored(t, k) ==> forall q :: 0 <= q < |r.imgs| && q != k ==> !r.imgs[q].isOpen
    ensures !Ignored(t, k) ==> AtMostOneOpen(r.imgs)
    ensures forall q :: 0 <= q < |r.imgs| ==>
      r.imgs[q].src == t.imgs[q].src && r.imgs[q].test == t.imgs[q].test
  {
    if Ignored(t, k) then
      t
    else
      var isOpen := !t.imgs[k].isOpen;
      t.(imgs := seq(|t.imgs|, q requires 0 <= q < |t.imgs| =>
        t.imgs[q].(isOpen := if q == k then isOpen else false)))
  }

  /** A click that is not ignored leaves at most one item open, whatever was
      open before; an ignored click changes nothing, so a list with at most
      one open item keeps that property under every click. */
  lemma ToggleOpenAtMostOne(t: TestImgs, k: int)
    requires 0 <= k < |t.imgs|
    ensures !Ignored(t, k) ==> AtMostOneOpen(ToggleOpen(t, k).imgs)
    ensures AtMostOneOpen(t.imgs) ==> AtMostOneOpen(ToggleOpen(t, k).imgs)
  {
  }

  /** No item is open exactly when the open count is zero. */
  lemma {:induction false} OpenCountZero(items: seq<ImgItem>)
    ensures OpenCount(items) == 0 <==> forall q :: 0 <= q < |items| ==> !items[q].isOpen
  {
    if items != [] {
      OpenCountZero(items[1..]);
      assert forall q :: 1 <= q < |items| ==> items[q] == items[1..][q - 1];
    }
  }

  /** "At most one open" agrees with counting: the open count is at most one. */
  lemma {:induction false} AtMostOneOpenIsCount(items: seq<ImgItem>)
    ensures AtMostOneOpen(items) <==> OpenCount(items) <= 1
  {
    if items != [] {
      var rest := items[1..];
      AtMostOneOpenIsCount(rest);
      OpenCountZero(rest);
      assert forall q :: 1 <= q < |items| ==> items[q] == rest[q - 1];
      if AtMostOneOpen(items) {
        assert AtMostOneOpen(rest) by {
          forall a, b | 0 <= a < |rest| && 0 <= b < |rest| && rest[a].isOpen && rest[b].isOpen
            ensures a == b
          {
            assert items[a + 1] == rest[a] && items[b + 1] == rest[b];
          }
        }
      }
      if OpenCount(items) <= 1 {
        forall a, b | 0 <= a < |items| && 0 <= b < |items| && items[a].isOpen && items[b].isOpen
          ensures a == b
        {
          if a != 0 && b != 0 {
            assert rest[a - 1].isOpen && rest[b - 1].isOpen;
          }
        }
      }
    }
  }

  /** After a click that is not ignored, exactly one item is open if the
      clicked item was closed, and none if it was open. */
  lemma ToggleOpenCount(t: TestImgs, k: int)
    requires 0 <= k < |t.imgs|
    requires !Ignored(t, k)
    ensures OpenCount(ToggleOpen(t, k).imgs) == if t.imgs[k].isOpen then 0 else 1
  {
    var r := ToggleOpen(t, k).imgs;
    ToggleOpenAtMostOne(t, k);
    AtMostOneOpenIsCount(r);
    OpenCountZero(r);
    if !t.imgs[k].isOpen {
      assert r[k].isOpen;
    }
  }

  /** Without recovery a second click on the same item changes nothing more:
      the open item can only be closed by opening another one. */
  lemma ToggleOpenTwiceWithoutRecovery(t: TestImgs, k: int)
    requires 0 <= k < |t.imgs| && !t.canRecovery
    ensures ToggleOpen(ToggleOpen(t, k), k) == ToggleOpen(t, k)
  {
  }

  /** With recovery, opening a closed item and clicking it again leaves
      every item closed. */
  lemma ToggleOpenTwiceWithRecovery(t: TestImgs, k: int)
    requires 0 <= k < |t.imgs| && t.canRecovery && !t.imgs[k].isOpen
    ensures forall q :: 0 <= q < |t.imgs| ==> !ToggleOpen(ToggleOpen(t, k), k).imgs[q].isOpen
  {
    var once := ToggleOpen(t, k);
    assert once.imgs[k].isOpen;
  }
}
