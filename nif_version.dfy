/** Version tests and the Havok unit scale shared by the Havok spells. */
module NifVersion {

  /** `havokConst`: Havok units per scene unit. */
  const HavokConst: real := 7.0

  /** `NifModel::checkVersion( since, until )`: the file version lies in the
      window [since, until], where a bound of 0 leaves that side open. */
  predicate CheckVersion(version: nat, since: nat, until: nat) {
    (since == 0 || since <= version) && (until == 0 || version <= until)
  }

  /** The `havokScale` every hull and decomposition spell computes: ten times
      `havokConst` for version 20.2.0.7 files with user version 12 or more,
      `havokConst` otherwise. */
  function HavokScale(version: nat, userVersion: int): (s: real)
    ensures s == 70.0 <==> version == 0x14020007 && userVersion >= 12
    ensures s != 70.0 ==> s == 7.0
    ensures s > 0.0
  {
    (if CheckVersion(version, 0x14020007, 0x14020007) && userVersion >= 12 then 10.0 else 1.0) * HavokConst
  }
}
