// The records the backend's command handlers exchange with the user
// interface.

module CommandTypes {
  import opened Common
  import opened ModQuery
  import opened AccessCheck

  /**
   * The mod record the command handlers receive: `mod_query`'s
   * `BaseMod` together with the flag telling a mod without a Workshop ID
   * (a local mod) apart.
   */
  datatype ScannedMod = ScannedMod(modId: string, modPath: Path, folder: Option<string>, details: Option<Details>,
                                   updated: Option<bool>, nonSteamMod: bool)

  /**
   * Why a command failed: the message it returns, or the access check
   * that refused the mods folder.
   */
  datatype CommandError = Message(text: string) | Denied(access: NoAccess)

  /** How a path is shown to the user: its components joined by `/`. */
  function PathText(p: Path): string
  {
    JoinWith(p, "/")
  }

  /** The IDs of a list of mods, in order. */
  function ModIds(mods: seq<ScannedMod>): (ids: seq<string>)
    ensures |ids| == |mods| && forall i :: 0 <= i < |mods| ==> ids[i] == mods[i].modId
  {
    seq(|mods|, i requires 0 <= i < |mods| => mods[i].modId)
  }

  /** The mods that carry Workshop details, in order. */
  function WithDetails(mods: seq<ScannedMod>): (r: seq<ScannedMod>)
    ensures forall m :: m in r ==> m.details.Some?
  {
    if mods == [] then []
    else (if mods[0].details.Some? then [mods[0]] else []) + WithDetails(mods[1..])
  }

  /** The mods without Workshop details, in order. */
  function WithoutDetails(mods: seq<ScannedMod>): (r: seq<ScannedMod>)
    ensures forall m :: m in r ==> m.details.None?
  {
    if mods == [] then []
    else (if mods[0].details.None? then [mods[0]] else []) + WithoutDetails(mods[1..])
  }

  /**
   * `partition` on `details.is_some()`: the two parts hold every mod
   * once between them (the functions' own contracts say which side each
   * mod is on).
   */
  lemma {:induction false} PartitionByDetails(mods: seq<ScannedMod>)
    ensures multiset(WithDetails(mods)) + multiset(WithoutDetails(mods)) == multiset(mods)
  {
    if mods != [] {
      PartitionByDetails(mods[1..]);
      assert mods == [mods[0]] + mods[1..];
    }
  }
}
