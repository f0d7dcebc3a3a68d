// `PathHistory` of `common/tools.py`: the back/forward list of visited folders
// behind a file browser's history buttons.

module History {

  class PathHistory {
    /** `self.history`: the visited paths, oldest first. */
    var history: seq<string>
    /** `self.index`: the position of the current path. */
    var index: int

    /** The cursor always points at an entry. */
    ghost predicate Valid()
      reads this
    {
      0 <= index < |history|
    }

    /** The current entry. */
    function Current(): (p: string)
      requires Valid()
      reads this
      ensures p in history
    {
      history[index]
    }

    constructor (path: string)
      ensures Valid() && history == [path] && index == 0
    {
      history := [path];
      index := 0;
    }

    /** `append`: every entry after the current one is forgotten, `path` is put after
        it and becomes current. */
    method Append(path: string)
      requires Valid()
      modifies this
      ensures Valid()
      ensures history == old(history[..index + 1]) + [path]
      ensures index == |history| - 1 && Current() == path
    {
      history := history[..index + 1] + [path];
      index := |history| - 1;
    }

    /** `previous`: one step back and the entry there; at the oldest entry, that entry
        and no move. */
    method Previous() returns (p: string)
      requires Valid()
      modifies this
      ensures Valid() && history == old(history)
      ensures old(index) == 0 ==> index == 0
      ensures old(index) > 0 ==> index == old(index) - 1
      ensures p == Current()
    {
      if index == 0 {
        return history[0];
      }
      p := history[index - 1];
      index := index - 1;
    }

    /** `next`: one step forward and the entry there; at the newest entry, that entry
        and no move. */
    method Next() returns (p: string)
      requires Valid()
      modifies this
      ensures Valid() && history == old(history)
      ensures old(index) == |history| - 1 ==> index == old(index)
      ensures old(index) < |history| - 1 ==> index == old(index) + 1
      ensures p == Current()
    {
      if index == |history| - 1 {
        return history[|history| - 1];
      }
      p := history[index + 1];
      index := index + 1;
    }

    /** `reset`: a history of `path` alone. */
    method Reset(path: string)
      modifies this
      ensures Valid() && history == [path] && index == 0
    {
      history := [path];
      index := 0;
    }
  }

  /** Going back and then forward again returns to where the history was, unless it
      was already at its oldest entry. */
  method BackAndForth(h: PathHistory) returns (back: string, forth: string)
    requires h.Valid() && h.index > 0
    modifies h
    ensures h.Valid()
    ensures h.history == old(h.history) && h.index == old(h.index)
    ensures back == h.history[h.index - 1] && forth == h.history[h.index]
  {
    back := h.Previous();
    forth := h.Next();
  }

  /** After `append`, `next` has nowhere to go: the forward entries are gone. */
  method AppendThenNext(h: PathHistory, path: string) returns (p: string)
    requires h.Valid()
    modifies h
    ensures h.Valid() && p == path && h.Current() == path
    ensures h.history == old(h.history[..h.index + 1]) + [path]
  {
    h.Append(path);
    p := h.Next();
  }
}
