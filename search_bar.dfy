/** The search field, components/ui/SearchBar.tsx. It is controlled when
    the parent passes `value` and keeps its own text otherwise. The passed
    value can change from one render to the next, so it is a parameter of
    every operation. */
module SearchBar {
  import opened Common

  /** The placeholder used when none is passed. */
  const DefaultPlaceholder: string := "Search..."

  function Placeholder(placeholder: Option<string>): (p: string)
    ensures placeholder.None? ==> p == DefaultPlaceholder
    ensures placeholder.Some? ==> p == placeholder.value
  {
    placeholder.GetOr(DefaultPlaceholder)
  }

  /** What one event reports to the parent's callbacks. */
  datatype Reports = Reports(changed: Option<string>, searched: Option<string>)

  class SearchBarState {
    var internal: string

    constructor()
      ensures internal == ""
    {
      internal := "";
    }

    /** `controlledValue ?? internalValue`: a passed value wins, even "". */
    function Value(controlled: Option<string>): (v: string)
      reads this
      ensures controlled.Some? ==> v == controlled.value
      ensures controlled.None? ==> v == internal
    {
      if controlled.Some? then controlled.value else internal
    }

    /** The clear button is there exactly when the shown value is not
        empty. */
    predicate ShowsClear(controlled: Option<string>): (shown: bool)
      reads this
      ensures controlled.Some? ==> (shown <==> controlled.value != "")
      ensures controlled.None? ==> (shown <==> internal != "")
    {
      Value(controlled) != ""
    }

    /** `handleChange`: the own text follows only when uncontrolled; the
        new text is always reported. */
    method Change(controlled: Option<string>, val: string) returns (r: Reports)
      modifies this
      ensures controlled.None? ==> internal == val
      ensures controlled.Some? ==> internal == old(internal)
      ensures r == Reports(Some(val), None)
    {
      if controlled.None? {
        internal := val;
      }
      r := Reports(Some(val), None);
    }

    /** `handleKeyDown`: Enter searches for the shown value; other keys
        report nothing. */
    method KeyDown(controlled: Option<string>, key: string) returns (r: Reports)
      ensures key == "Enter" ==> r == Reports(None, Some(Value(controlled)))
      ensures key != "Enter" ==> r == Reports(None, None)
    {
      if key == "Enter" {
        r := Reports(None, Some(Value(controlled)));
      } else {
        r := Reports(None, None);
      }
    }

    /** `handleClear`: reports "" as the new text and searches for "". */
    method Clear(controlled: Option<string>) returns (r: Reports)
      modifies this
      ensures controlled.None? ==> internal == "" && !ShowsClear(controlled)
      ensures controlled.Some? ==> internal == old(internal)
      ensures r == Reports(Some(""), Some(""))
    {
      var changed := Change(controlled, "");
      r := Reports(changed.changed, Some(""));
    }
  }
}
