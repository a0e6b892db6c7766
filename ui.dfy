/**
 * The bounded undo history of src/ui.rs: `update_undos`, the Undo button and
 * the history update made when a file is opened. The state shared behind
 * `Arc<Mutex<…>>` is a plain object here; images are an opaque type.
 */
module Ui {
  import opened Convs

  /** `MAX_UNDOS_LEN`. */
  const MaxUndosLen: nat := 3

  /** The part of the application state the history code touches. */
  datatype History<Img> = History(img: Option<Img>, undos: seq<Img>)

  /** The history is never longer than `MaxUndosLen`. */
  predicate Bounded<Img>(h: History<Img>)
  {
    |h.undos| <= MaxUndosLen
  }

  // ---------------------------------------------------------------------
  // The transitions as functions

  /** `update_undos`: push the image, then drop entry 0 if the list is now too long. */
  function Pushed<Img>(undos: seq<Img>, img: Img): seq<Img>
  {
    var grown := undos + [img];
    if |grown| > MaxUndosLen then grown[1..] else grown
  }

  /** The Undo button: the newest entry, if any, becomes the current image. */
  function Undone<Img>(h: History<Img>): History<Img>
  {
    if h.undos == [] then h
    else History(Some(h.undos[|h.undos| - 1]), h.undos[..|h.undos| - 1])
  }

  /** Opening a file: when it decodes, the current image (if any) is pushed and replaced. */
  function Opened<Img>(h: History<Img>, decoded: Option<Img>): History<Img>
  {
    if decoded.None? then h
    else History(decoded, if h.img.Some? then Pushed(h.undos, h.img.value) else h.undos)
  }

  // ---------------------------------------------------------------------
  // What the transitions promise

  /** The pushed image is the newest entry, and a bounded history stays bounded. */
  lemma PushedNewestAndBounded<Img>(undos: seq<Img>, img: Img)
    ensures |Pushed(undos, img)| >= 1 && Pushed(undos, img)[|Pushed(undos, img)| - 1] == img
    ensures |undos| <= MaxUndosLen ==> |Pushed(undos, img)| <= MaxUndosLen
  {
  }

  /** Below the bound nothing is lost: the old entries stay in place and the length grows by one. */
  lemma PushedBelowBound<Img>(undos: seq<Img>, img: Img)
    requires |undos| < MaxUndosLen
    ensures |Pushed(undos, img)| == |undos| + 1
    ensures forall k :: 0 <= k < |undos| ==> Pushed(undos, img)[k] == undos[k]
  {
  }

  /** At the bound exactly the oldest entry goes and the others move down one place, in order. */
  lemma PushedAtBound<Img>(undos: seq<Img>, img: Img)
    requires |undos| == MaxUndosLen
    ensures |Pushed(undos, img)| == MaxUndosLen
    ensures forall k :: 0 <= k < MaxUndosLen - 1 ==> Pushed(undos, img)[k] == undos[k + 1]
  {
  }

  /** Undo takes the newest entry as the image and shortens the history by one; with no entry it does nothing. */
  lemma UndoneTakesNewest<Img>(h: History<Img>)
    ensures h.undos == [] ==> Undone(h) == h
    ensures h.undos != [] ==> Undone(h).img == Some(h.undos[|h.undos| - 1]) &&
                              Undone(h).undos + [h.undos[|h.undos| - 1]] == h.undos
  {
  }

  /** A file that does not decode changes nothing; one that does becomes the image. */
  lemma OpenedReplaces<Img>(h: History<Img>, decoded: Option<Img>)
    ensures decoded.None? ==> Opened(h, decoded) == h
    ensures decoded.Some? ==> Opened(h, decoded).img == decoded
    ensures decoded.Some? && h.img.None? ==> Opened(h, decoded).undos == h.undos
    ensures decoded.Some? && h.img.Some? ==> Opened(h, decoded).undos == Pushed(h.undos, h.img.value)
  {
  }

  /** Every transition keeps the history within its bound. */
  lemma TransitionsKeepBound<Img>(h: History<Img>, img: Img, decoded: Option<Img>)
    requires Bounded(h)
    ensures |Pushed(h.undos, img)| <= MaxUndosLen
    ensures Bounded(Undone(h))
    ensures Bounded(Opened(h, decoded))
  {
  }

  /**
   * Opening B while A is shown and then pressing Undo shows A again; the
   * history is back as it was when nothing had to be evicted, and has lost
   * only its oldest entry otherwise.
   */
  lemma OpenThenUndo<Img>(h: History<Img>, b: Img)
    requires h.img.Some? && Bounded(h)
    ensures Undone(Opened(h, Some(b))).img == h.img
    ensures |h.undos| < MaxUndosLen ==> Undone(Opened(h, Some(b))).undos == h.undos
    ensures |h.undos| == MaxUndosLen ==> Undone(Opened(h, Some(b))).undos == h.undos[1..]
  {
    var pushed := Pushed(h.undos, h.img.value);
    if |h.undos| < MaxUndosLen {
      assert pushed == h.undos + [h.img.value];
      assert pushed[..|pushed| - 1] == h.undos;
    } else {
      assert pushed == h.undos[1..] + [h.img.value];
      assert pushed[..|pushed| - 1] == h.undos[1..];
    }
  }

  // ---------------------------------------------------------------------
  // The state object

  /** `AppState` reduced to the current image and the undo list. */
  class AppState<Img> {
    var img: Option<Img>
    var undos: seq<Img>

    ghost function State(): History<Img>
      reads this
    {
      History(img, undos)
    }

    /** The initial state of the application: no image, empty history. */
    constructor()
      ensures State() == History(None, [])
      ensures Bounded(State())
    {
      img := None;
      undos := [];
    }

    /** `update_undos`. */
    method UpdateUndos(image: Img)
      modifies this
      ensures undos == Pushed(old(undos), image)
      ensures img == old(img)
    {
      undos := undos + [image];
      if |undos| > MaxUndosLen {
        undos := undos[1..];
      }
    }

    /** The Undo button's click handler. */
    method Undo()
      modifies this
      ensures State() == Undone(old(State()))
    {
      if undos != [] {
        var prev := undos[|undos| - 1];
        undos := undos[..|undos| - 1];
        img := Some(prev);
      }
    }

    /** `FileOpenController::event` for an open-file command; `decoded` is what `image_from_path` returned. */
    method OpenFile(decoded: Option<Img>)
      modifies this
      ensures State() == Opened(old(State()), decoded)
    {
      if decoded.Some? {
        if img.Some? {
          UpdateUndos(img.value);
        }
        img := decoded;
      }
    }
  }
}
