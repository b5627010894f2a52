/**
 * `make_face_dict`: the registry from identity to ground-truth face. Either
 * the faces of the given identities are read from `<dir>/face_<id>.csv`, or
 * every file matching `face_*` in the directory is read and keyed by the
 * identity parsed from its name. Reading and scaling a face file is the
 * caller-supplied `load`; listing a directory is the caller-supplied `glob`.
 */
module FaceDict {
  import opened Wrappers
  import opened PyStrings
  import opened Filenames

  datatype FaceDictError =
    | EmptyDirectory                    // indexing the last character of an empty path
    | BadFaceFile(reason: ParseError)   // `get_n` rejected a listed file name

  /**
   * The face file of identity `id` in a directory already ending in '/': it
   * lies in that directory, and `get_n` reads the identity back from it.
   */
  function FaceFileName(dir: string, id: int): (name: string)
    ensures |name| > |dir| && name[..|dir|] == dir
    ensures IsDirPrefix(dir) ==> GetN(name) == Ok(id)
  {
    var name := dir + "face_" + IntToString(id) + ".csv";
    assert name == dir + "face" + "_" + IntToString(id) + "." + "csv";
    if IsDirPrefix(dir) then
      GetNRoundTrip(dir, "face", id, "csv");
      name
    else name
  }

  /** The file a face is read from under a normalised directory names its identity. */
  lemma FaceFileNameRoundTrip(path: string, id: int)
    requires path != []
    ensures GetN(FaceFileName(WithTrailingSlash(path).value, id)) == Ok(id)
  {
    assert IsDirPrefix(WithTrailingSlash(path).value);
  }

  /** The files `make_face_dict` lists when no identities are given. */
  function ListedFaceFiles(path: string, glob: string -> seq<string>): seq<string>
    requires path != []
  {
    GlobAll([path], "face_*", glob).value
  }

  /** Every file name parses. */
  predicate AllParse(files: seq<string>, parse: string -> Result<int, ParseError>)
  {
    forall j :: 0 <= j < |files| ==> parse(files[j]).Ok?
  }

  /** `e` is the error of the first file name that does not parse. */
  predicate FirstFailure(files: seq<string>, parse: string -> Result<int, ParseError>, e: ParseError)
  {
    exists j :: 0 <= j < |files| && parse(files[j]) == Err(e) &&
      forall j' :: 0 <= j' < j ==> parse(files[j']).Ok?
  }

  /**
   * `faceDict` holds the identity of every file, and each identity's face is
   * read from the last file that names it.
   */
  ghost predicate KeyedByLastFile<F>(files: seq<string>, parse: string -> Result<int, ParseError>,
                               load: string -> F, faceDict: map<int, F>)
    requires AllParse(files, parse)
  {
    (forall j :: 0 <= j < |files| ==> parse(files[j]).value in faceDict) &&
    forall k :: k in faceDict ==>
      exists j :: 0 <= j < |files| && parse(files[j]) == Ok(k) &&
        faceDict[k] == load(files[j]) &&
        forall j' :: j < j' < |files| ==> parse(files[j']) != Ok(k)
  }

  /**
   * The loop of `make_face_dict` over listed files, with `get_n` passed as
   * `parse`: the first unparsable name raises; otherwise every file is keyed by its identity, and of two files
   * with one identity the later wins.
   */
  method FaceDictFromFiles<F>(files: seq<string>, parse: string -> Result<int, ParseError>,
                              load: string -> F)
    returns (r: Result<map<int, F>, ParseError>)
    ensures r.Ok? <==> AllParse(files, parse)
    ensures r.Err? ==> FirstFailure(files, parse, r.error)
    ensures r.Ok? ==> KeyedByLastFile(files, parse, load, r.value)
  {
    var faceDict: map<int, F> := map[];
    for i := 0 to |files|
      invariant forall j :: 0 <= j < i ==> parse(files[j]).Ok? && parse(files[j]).value in faceDict
      invariant forall k :: k in faceDict ==>
                  exists j :: 0 <= j < i && parse(files[j]) == Ok(k) &&
                    faceDict[k] == load(files[j]) &&
                    forall j' :: j < j' < i ==> parse(files[j']) != Ok(k)
    {
      var parsed := parse(files[i]);
      if parsed.Err? {
        assert parse(files[i]) == Err(parsed.error);
        return Err(parsed.error);
      }
      var id := parsed.value;
      var previous := faceDict;
      faceDict := faceDict[id := load(files[i])];
      forall k | k in faceDict
        ensures exists j :: 0 <= j < i + 1 && parse(files[j]) == Ok(k) &&
                  faceDict[k] == load(files[j]) &&
                  forall j' :: j < j' < i + 1 ==> parse(files[j']) != Ok(k)
      {
        if k == id {
          assert parse(files[i]) == Ok(k);
        } else {
          var j :| 0 <= j < i && parse(files[j]) == Ok(k) &&
                   previous[k] == load(files[j]) &&
                   forall j' :: j < j' < i ==> parse(files[j']) != Ok(k);
          assert faceDict[k] == load(files[j]);
        }
      }
    }
    r := Ok(faceDict);
  }

  /**
   * The loop of `make_face_dict` over given identities: exactly those are
   * keys, each read from its own file under `dir`.
   */
  method FaceDictFromIds<F>(dir: string, ids: seq<int>, load: string -> F)
    returns (faceDict: map<int, F>)
    ensures faceDict.Keys == (set i | i in ids)
    ensures forall k :: k in faceDict ==> faceDict[k] == load(FaceFileName(dir, k))
  {
    faceDict := map[];
    for i := 0 to |ids|
      invariant faceDict.Keys == set j | 0 <= j < i :: ids[j]
      invariant forall k :: k in faceDict ==> faceDict[k] == load(FaceFileName(dir, k))
    {
      faceDict := faceDict[ids[i] := load(dir + "face_" + IntToString(ids[i]) + ".csv")];
    }
    assert forall k :: k in faceDict.Keys <==> k in ids by {
      forall k ensures k in faceDict.Keys <==> k in ids {
        if k in ids {
          var j :| 0 <= j < |ids| && ids[j] == k;
        }
      }
    }
  }

  /** `make_face_dict(path, IDs=ids)` with file reading abstracted as `load`. */
  method MakeFaceDict<F>(path: string, ids: Option<seq<int>>, glob: string -> seq<string>,
                         load: string -> F)
    returns (r: Result<map<int, F>, FaceDictError>)
    ensures path == [] ==> r == Err(EmptyDirectory)
    ensures path != [] && ids.Some? ==>
              r.Ok? &&
              r.value.Keys == (set i | i in ids.value) &&
              forall k :: k in r.value ==>
                r.value[k] == load(FaceFileName(WithTrailingSlash(path).value, k))
    ensures path != [] && ids.None? ==>
              var files := ListedFaceFiles(path, glob);
              (r.Ok? <==> AllParse(files, GetN)) &&
              (r.Err? ==> r.error.BadFaceFile? && FirstFailure(files, GetN, r.error.reason)) &&
              (r.Ok? ==> KeyedByLastFile(files, GetN, load, r.value))
  {
    if path == [] {
      return Err(EmptyDirectory);
    }
    if ids.None? {
      var listed := GetFilenames([path], "face_*", glob);
      var fromFiles := FaceDictFromFiles(listed.value, GetN, load);
      match fromFiles
      case Err(e) => r := Err(BadFaceFile(e));
      case Ok(d) => r := Ok(d);
    } else {
      var dir := path;
      if dir[|dir| - 1] != '/' {
        dir := dir + "/";
      }
      var faceDict := FaceDictFromIds(dir, ids.value, load);
      r := Ok(faceDict);
    }
  }
}
