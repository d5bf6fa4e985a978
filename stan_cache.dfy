/** load_stan: which file a Stan model is read from. The file name may
    carry a ".pkl" or ".stan" ending; a cached pickle is loaded unless
    `overwrite` is set, otherwise the ".stan" source is compiled and the
    result pickled under the model name, and with neither file present
    an IOError names both. The file system is the set of existing paths;
    the pickling, compiling and printing themselves are not modelled. */
module StanCache {
  import opened Text

  /** Removes one ".pkl" ending, or else one ".stan" ending. */
  function StripExtension(filename: string): (base: string)
    ensures EndsWith(filename, ".pkl") ==> base + ".pkl" == filename
    ensures !EndsWith(filename, ".pkl") && EndsWith(filename, ".stan") ==> base + ".stan" == filename
    ensures !EndsWith(filename, ".pkl") && !EndsWith(filename, ".stan") ==> base == filename
  {
    if EndsWith(filename, ".pkl") then filename[..|filename| - 4]
    else if EndsWith(filename, ".stan") then filename[..|filename| - 5]
    else filename
  }

  /** Adding either ending and stripping gives the name back; only one
      ending is ever removed, so "a.stan.pkl" becomes "a.stan". */
  lemma {:induction false} StripExtensionRoundTrip(base: string)
    ensures StripExtension(base + ".pkl") == base
    ensures StripExtension(base + ".stan") == base
  {
    var pkl, stan := base + ".pkl", base + ".stan";
    assert pkl[|pkl| - 4..] == ".pkl";
    assert pkl[..|pkl| - 4] == base;
    assert stan[|stan| - 1] == 'n';
    assert stan[|stan| - 5..] == ".stan";
    assert stan[..|stan| - 5] == base;
  }

  /** The model name: the text after the last '/' if there is one, else
      after the last '\\' if there is one, else the whole base name. */
  function ModelName(base: string): (name: string)
    ensures |name| <= |base| && base[|base| - |name|..] == name
    ensures '/' !in name
    ensures '/' in base ==> |name| < |base| && base[|base| - |name| - 1] == '/'
    ensures '/' !in base && '\\' in base ==>
      '\\' !in name && |name| < |base| && base[|base| - |name| - 1] == '\\'
    ensures '/' !in base && '\\' !in base ==> name == base
  {
    LastPiece(base, '/');
    LastPiece(base, '\\');
    if '/' in base then Last(Split(base, '/'))
    else if '\\' in base then Last(Split(base, '\\'))
    else base
  }

  /** What load_stan does: load the pickle, compile the source and
      pickle it, or raise IOError with the given message. */
  datatype LoadAction =
    | LoadPickle(pkl: string)
    | CompileAndSave(stan: string, modelName: string, pkl: string)
    | NotFound(message: string)

  function LoadStan(filename: string, overwrite: bool, files: set<string>): (a: LoadAction)
    ensures var base := StripExtension(filename);
      && (a.LoadPickle? <==> !overwrite && base + ".pkl" in files)
      && (a.CompileAndSave? <==> (overwrite || base + ".pkl" !in files) && base + ".stan" in files)
      && (a.LoadPickle? ==> a.pkl == base + ".pkl")
      && (a.CompileAndSave? ==> a.stan == base + ".stan" && a.pkl == base + ".pkl" && a.modelName == ModelName(base))
      && (a.NotFound? ==> a.message == "File " + base + ".stan or " + base + ".pkl not found")
  {
    var base := StripExtension(filename);
    if !overwrite && base + ".pkl" in files then LoadPickle(base + ".pkl")
    else if base + ".stan" in files then CompileAndSave(base + ".stan", ModelName(base), base + ".pkl")
    else NotFound("File " + base + ".stan" + " or " + base + ".pkl" + " not found")
  }

  /** "m", "m.stan" and "m.pkl" name the same model. */
  lemma {:induction false} SpellingsAgree(base: string, overwrite: bool, files: set<string>)
    requires !EndsWith(base, ".pkl") && !EndsWith(base, ".stan")
    ensures LoadStan(base + ".stan", overwrite, files) == LoadStan(base, overwrite, files)
    ensures LoadStan(base + ".pkl", overwrite, files) == LoadStan(base, overwrite, files)
  {
    StripExtensionRoundTrip(base);
  }

  /** Once a compiled model has been saved, the next call without
      `overwrite` loads that pickle. */
  lemma {:induction false} CompileThenLoad(filename: string, overwrite: bool, files: set<string>)
    requires LoadStan(filename, overwrite, files).CompileAndSave?
    ensures LoadStan(filename, false, files + {LoadStan(filename, overwrite, files).pkl})
         == LoadPickle(LoadStan(filename, overwrite, files).pkl)
  {
  }
}
