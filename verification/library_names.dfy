/** lib/libraryNames.ts: the display names shown for the stored library names. */
module LibraryNames {

  /** `Library` of utils/types: only `name` is ever rewritten. */
  datatype Library = Library(id: string, name: string, color: string)

  /** `getDisplayName`. */
  function DisplayName(name: string): string {
    if name == "Schloss Bibliothek" || name == "Schloss" then "Ausleihzentrum Schloss"
    else if name == "BWL Bibliothek" || name == "BWL" then "Schneckenhof Bibliothek"
    else if name == "Jura Bibliothek" || name == "Jura" then "Ehrenhof Bibliothek"
    else name
  }

  /** The names that have a display name of their own. */
  predicate Renamed(name: string) {
    name in ["Schloss Bibliothek", "Schloss", "BWL Bibliothek", "BWL", "Jura Bibliothek", "Jura"]
  }

  /** Each renamed library gets its display name, every other name is kept, and a
      display name is itself never renamed, so applying the map twice changes nothing. */
  lemma DisplayNameCases(name: string)
    ensures !Renamed(name) ==> DisplayName(name) == name
    ensures (name == "Schloss" || name == "Schloss Bibliothek") <==> DisplayName(name) == "Ausleihzentrum Schloss" && name != "Ausleihzentrum Schloss"
    ensures (name == "BWL" || name == "BWL Bibliothek") <==> DisplayName(name) == "Schneckenhof Bibliothek" && name != "Schneckenhof Bibliothek"
    ensures (name == "Jura" || name == "Jura Bibliothek") <==> DisplayName(name) == "Ehrenhof Bibliothek" && name != "Ehrenhof Bibliothek"
    ensures DisplayName(DisplayName(name)) == DisplayName(name)
  {
    assert !Renamed("Ausleihzentrum Schloss") && !Renamed("Schneckenhof Bibliothek") && !Renamed("Ehrenhof Bibliothek");
  }

  /** `getLibraryWithDisplayName`: `id` and `color` are kept. */
  function WithDisplayName(lib: Library): (r: Library)
    ensures r.id == lib.id && r.color == lib.color && r.name == DisplayName(lib.name)
    ensures !Renamed(lib.name) ==> r == lib
  {
    lib.(name := DisplayName(lib.name))
  }

  /** `getLibrariesWithDisplayNames`: the same libraries, in the same order. */
  function WithDisplayNames(libs: seq<Library>): (r: seq<Library>)
    ensures |r| == |libs|
    ensures forall i :: 0 <= i < |libs| ==> r[i].id == libs[i].id && r[i].color == libs[i].color
                                            && r[i].name == DisplayName(libs[i].name)
  {
    if |libs| == 0 then [] else [WithDisplayName(libs[0])] + WithDisplayNames(libs[1..])
  }
}
