/** `creatingDropdowns`: the options of the author and genre selects. */
module Dropdowns {
  import opened Dom

  /** One option per registry entry, `Object.entries` order, id as value and
      name as text. */
  function EntryOptions(entries: seq<(string, string)>): seq<SelectOption> {
    if entries == [] then []
    else [SelectOption(entries[0].0, entries[0].1)] + EntryOptions(entries[1..])
  }

  /** The `any` option labelled `text`, then one option per entry. */
  function DropdownOptions(entries: seq<(string, string)>, text: string): seq<SelectOption> {
    [SelectOption("any", text)] + EntryOptions(entries)
  }

  /** The dropdown opens with the `any` option and lists every entry once,
      in registry order. */
  lemma DropdownShape(entries: seq<(string, string)>, text: string)
    ensures |DropdownOptions(entries, text)| == |entries| + 1
    ensures DropdownOptions(entries, text)[0] == SelectOption("any", text)
    ensures forall i :: 0 <= i < |entries| ==>
      DropdownOptions(entries, text)[i + 1] == SelectOption(entries[i].0, entries[i].1)
  {
    EntryOptionsAt(entries);
  }

  lemma {:induction false} EntryOptionsAt(entries: seq<(string, string)>)
    ensures |EntryOptions(entries)| == |entries|
    ensures forall i :: 0 <= i < |entries| ==>
      EntryOptions(entries)[i] == SelectOption(entries[i].0, entries[i].1)
  {
    if entries != [] {
      EntryOptionsAt(entries[1..]);
      forall i | 0 < i < |entries|
        ensures EntryOptions(entries)[i] == SelectOption(entries[i].0, entries[i].1)
      {
        assert entries[i] == entries[1..][i - 1];
      }
    }
  }

  /** The fragment `creatingDropdowns` builds: the `any` option, then the
      entries one by one. */
  method BuildDropdown(entries: seq<(string, string)>, text: string) returns (fragment: seq<SelectOption>)
    ensures fragment == DropdownOptions(entries, text)
  {
    fragment := [SelectOption("any", text)];
    var i := 0;
    while i < |entries|
      invariant 0 <= i <= |entries|
      invariant fragment + EntryOptions(entries[i..]) == DropdownOptions(entries, text)
    {
      var (id, name) := entries[i];
      assert entries[i..][1..] == entries[i + 1..];
      fragment := fragment + [SelectOption(id, name)];
      i := i + 1;
    }
  }
}
