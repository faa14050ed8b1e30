/**
  Names of the state variables the IE dialect gives to ReadValue and Assign
  operations: a ReadValue name starts with the read-value prefix, an Assign name
  with the assign prefix, and an Assign name is renamed to its ReadValue partner
  by swapping the prefix.
*/
module StatePrefix {
  import opened Wrappers

  const ReadValuePrefix: string := "vpux_ie_read_value_"
  const AssignPrefix: string := "vpux_ie_assign_"

  /** std::string::substr throws std::out_of_range when its position is past the end. */
  datatype StringError = OutOfRange(position: nat, length: nat)

  /**
    `name.compare(0, |prefix|, prefix) == 0`: the first `min(|prefix|, |name|)`
    characters of `name` compared with the whole prefix.
  */
  function ComparesEqualAtStart(name: string, prefix: string): (r: bool)
    ensures r <==> prefix <= name
  {
    var n := if |prefix| <= |name| then |prefix| else |name|;
    name[..n] == prefix
  }

  function IsStateInputName(name: string): (r: bool)
    ensures r <==> ReadValuePrefix <= name
  {
    ComparesEqualAtStart(name, ReadValuePrefix)
  }

  function IsStateOutputName(name: string): (r: bool)
    ensures r <==> AssignPrefix <= name
  {
    ComparesEqualAtStart(name, AssignPrefix)
  }

  /** Replaces the first |AssignPrefix| characters of `name` by the read-value prefix. */
  function StateOutputToStateInputName(name: string): (r: Result<string, StringError>)
    ensures r.Ok? <==> |AssignPrefix| <= |name|
    ensures r.Ok? ==> IsStateInputName(r.value)
    ensures r.Ok? ==> |r.value| == |name| - |AssignPrefix| + |ReadValuePrefix|
    ensures r.Ok? ==> r.value[|ReadValuePrefix|..] == name[|AssignPrefix|..]
    ensures r.Err? ==> r.error == OutOfRange(|AssignPrefix|, |name|)
  {
    if |AssignPrefix| <= |name| then
      Ok(ReadValuePrefix + name[|AssignPrefix|..])
    else
      Err(OutOfRange(|AssignPrefix|, |name|))
  }

  /** The two prefixes first differ at position 8 ('r' against 'a'), so no name is both. */
  lemma StateNamesDisjoint(name: string)
    ensures !(IsStateInputName(name) && IsStateOutputName(name))
  {
    if IsStateInputName(name) {
      assert name[8] == ReadValuePrefix[8] == 'r';
      assert AssignPrefix[8] == 'a';
    }
  }

  /** Renaming an Assign name keeps its suffix and yields the matching ReadValue name. */
  lemma RenameAssignName(suffix: string)
    ensures IsStateOutputName(AssignPrefix + suffix)
    ensures StateOutputToStateInputName(AssignPrefix + suffix) == Ok(ReadValuePrefix + suffix)
  {
    assert (AssignPrefix + suffix)[|AssignPrefix|..] == suffix;
  }

  /** Every Assign name can be renamed, and the renamed name is no longer an Assign name. */
  lemma RenameLeavesOutputNames(name: string)
    requires IsStateOutputName(name)
    ensures StateOutputToStateInputName(name).Ok?
    ensures !IsStateOutputName(StateOutputToStateInputName(name).value)
  {
    StateNamesDisjoint(StateOutputToStateInputName(name).value);
  }
}
