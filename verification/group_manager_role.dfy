/** `GroupRole`: the fixed catalogue of group roles and their numeric levels,
    creator (3) > admin (2) > mod (1) > member (0). Any name outside the
    catalogue gets the lowest level. */
module GroupRoles {

  /** The `{ value, level }` pair each getter returns. */
  datatype Role = Role(value: string, level: int)

  /** `GroupRole.getLevelFromString`. */
  function LevelFromString(role: string): (level: int)
    ensures 0 <= level <= 3
    ensures level == 3 <==> role == "creator"
    ensures level == 2 <==> role == "admin"
    ensures level == 1 <==> role == "mod"
    ensures role !in {"creator", "admin", "mod"} ==> level == 0
  {
    if role == "creator" then 3
    else if role == "admin" then 2
    else if role == "mod" then 1
    else 0
  }

  /** `GroupRole.creator`. */
  function Creator(): (r: Role)
    ensures r.value == "creator" && r.level == LevelFromString(r.value)
  {
    Role("creator", LevelFromString("creator"))
  }

  /** `GroupRole.admin`. */
  function Admin(): (r: Role)
    ensures r.value == "admin" && r.level == LevelFromString(r.value)
  {
    Role("admin", LevelFromString("admin"))
  }

  /** `GroupRole.mod`. */
  function Mod(): (r: Role)
    ensures r.value == "mod" && r.level == LevelFromString(r.value)
  {
    Role("mod", LevelFromString("mod"))
  }

  /** `GroupRole.member`. */
  function Member(): (r: Role)
    ensures r.value == "member" && r.level == LevelFromString(r.value)
  {
    Role("member", LevelFromString("member"))
  }

  /** The four roles of the catalogue. */
  function Catalog(): seq<Role> {
    [Creator(), Admin(), Mod(), Member()]
  }

  /** The catalogue is strictly ordered creator > admin > mod > member, its
      levels are exactly 3, 2, 1, 0, and the lowest level is the one every
      unknown role name falls back to. */
  lemma CatalogIsStrictlyOrdered()
    ensures Creator().level == 3 && Admin().level == 2 && Mod().level == 1 && Member().level == 0
    ensures forall i, j :: 0 <= i < j < |Catalog()| ==> Catalog()[i].level > Catalog()[j].level
    ensures forall name: string :: name !in {"creator", "admin", "mod"} ==> LevelFromString(name) == Member().level
  {
  }

  /** Within the catalogue the level identifies the role: no two catalogue
      names share a level, so a level can be read back as a role name. */
  lemma LevelIdentifiesCatalogRole(a: Role, b: Role)
    requires a in Catalog() && b in Catalog()
    ensures a.level == b.level <==> a == b
    ensures LevelFromString(a.value) == a.level
  {
  }
}
