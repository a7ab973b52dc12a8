/** The helpers of editor/utils.py: the file name without its extension, and the test of
    whether that name already starts with a species name ("Genus species ..."). */
module EditorUtils {
  import opened Common
  import PosixPath
  import ExifUtils
  import MetadataWidget

  /** get_name: the last "/" piece of the path without its last extension; the same
      expression as metadata_widget.get_name, so the same function. */
  function GetName(path: string): string
  {
    MetadataWidget.GetName(path)
  }

  /** has_specie: the name has more than two space-separated words, the first starting with
      an upper-case letter and the second with a lower-case one. An empty first word (a
      leading or doubled space) makes `names[0][0]` raise; so does an empty second word
      after an upper-case first one. */
  function HasSpecie(imagePath: string): (r: Outcome<bool>)
    ensures var names := Split(GetName(imagePath), ' ');
      r.Raises? <==>
        |names| > 2 && (names[0] == [] || (IsUpperAscii(names[0][0]) && names[1] == []))
    ensures var names := Split(GetName(imagePath), ' ');
      r == Returns(true) <==>
        && |names| > 2
        && names[0] != [] && IsUpperAscii(names[0][0])
        && names[1] != [] && IsLowerAscii(names[1][0])
  {
    var names := Split(GetName(imagePath), ' ');
    if |names| <= 2 then Returns(false)
    else if names[0] == [] then Raises
    else if !IsUpperAscii(names[0][0]) then Returns(false)
    else if names[1] == [] then Raises
    else Returns(IsLowerAscii(names[1][0]))
  }

  /** A file name without an extension gives the empty name, which has no species. */
  lemma NoExtensionNoSpecie(path: string)
    requires '.' !in PosixPath.Basename(path)
    ensures GetName(path) == []
    ensures HasSpecie(path) == Returns(false)
  {
    MetadataWidget.GetNameAgrees(path);
    ExifUtils.StemWithoutDot(PosixPath.Basename(path));
    assert Split([], ' ') == [[]];
  }

  /** A file named "Genus species rest.ext" has a species. */
  lemma SpeciesFileName(genus: string, species: string, rest: string, ext: string)
    requires genus != [] && IsUpperAscii(genus[0]) && ' ' !in genus
    requires species != [] && IsLowerAscii(species[0]) && ' ' !in species
    requires '.' !in ext
    requires '/' !in genus + " " + species + " " + rest + "." + ext
    ensures GetName(genus + " " + species + " " + rest + "." + ext) == genus + " " + species + " " + rest
    ensures HasSpecie(genus + " " + species + " " + rest + "." + ext) == Returns(true)
  {
    var stem := genus + " " + species + " " + rest;
    var path := stem + "." + ext;
    assert path == stem + ['.'] + ext;
    SplitWithoutSeparator(path, '/');
    ExifUtils.StemDropsExtension(stem, ext);
    assert GetName(path) == stem;
    assert stem == genus + [' '] + (species + [' '] + rest);
    SplitAround(genus, species + [' '] + rest, ' ');
    SplitAround(species, rest, ' ');
    SplitWithoutSeparator(genus, ' ');
    SplitWithoutSeparator(species, ' ');
    var names := Split(stem, ' ');
    assert names == [genus] + ([species] + Split(rest, ' '));
    assert names[0] == genus && names[1] == species && |names| > 2;
  }
}
