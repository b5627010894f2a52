/**
 * The filename conventions of the data set: voice spectrograms are stored as
 * `<dir>/voice_<n>_<m>.csv` (speaker `n`, recording `m`) and faces as
 * `<dir>/face_<n>.csv`. Directories are normalised to end in a slash before a
 * file pattern is appended to them.
 */
module Filenames {
  import opened Wrappers
  import opened PyStrings

  /** Why a file name could not be parsed: each is a `ValueError` in Python. */
  datatype ParseError =
    | BadExtension   // the last component does not hold exactly one '.'
    | BadFieldCount  // the stem does not split into the expected number of '_' fields
    | NotAnInteger   // a numeric field is rejected by int()

  /** Indexing `path[-1]` on an empty path raises `IndexError`. */
  datatype PathError = EmptyPath

  /**
   * The last '/'-separated component: everything up to the last '/' is dropped, so the
   * result is the longest suffix of `path` that holds no '/'.
   */
  function BaseName(path: string): (name: string)
    ensures '/' !in name
    ensures |name| <= |path| && path[|path| - |name|..] == name
    ensures |name| == |path| || path[|path| - |name| - 1] == '/'
  {
    LastFieldIsSuffix(path, '/');
    var parts := Split(path, '/');
    parts[|parts| - 1]
  }

  /** The first '.'-separated field: what is left of the last component before its dot. */
  function Stem(name: string): string
  {
    Split(name, '.')[0]
  }

  /**
   * `get_n_m`: the speaker number `n` and recording number `m` of a voice file.
   * The leading word before the first '_' is never looked at.
   */
  function GetNM(path: string): (r: Result<(int, int), ParseError>)
    ensures Count(BaseName(path), '.') != 1 ==> r == Err(BadExtension)
    ensures Count(BaseName(path), '.') == 1 && Count(Stem(BaseName(path)), '_') != 2 ==>
              r == Err(BadFieldCount)
    ensures Count(BaseName(path), '.') == 1 && Count(Stem(BaseName(path)), '_') == 2 ==>
              var fields := Split(Stem(BaseName(path)), '_');
              (r.Ok? <==> ParseInt(fields[1]).Some? && ParseInt(fields[2]).Some?) &&
              (r.Ok? ==> r.value == (ParseInt(fields[1]).value, ParseInt(fields[2]).value))
  {
    var name := BaseName(path);
    var dotParts := Split(name, '.');
    if |dotParts| != 2 then Err(BadExtension)
    else
      var fields := Split(dotParts[0], '_');
      if |fields| != 3 then Err(BadFieldCount)
      else
        match ParseInt(fields[1])
        case None => Err(NotAnInteger)
        case Some(n) =>
          match ParseInt(fields[2])
          case None => Err(NotAnInteger)
          case Some(m) => Ok((n, m))
  }

  /** `get_n`: the identity number `n` of a face file. */
  function GetN(path: string): (r: Result<int, ParseError>)
    ensures Count(BaseName(path), '.') != 1 ==> r == Err(BadExtension)
    ensures Count(BaseName(path), '.') == 1 && Count(Stem(BaseName(path)), '_') != 1 ==>
              r == Err(BadFieldCount)
    ensures Count(BaseName(path), '.') == 1 && Count(Stem(BaseName(path)), '_') == 1 ==>
              var fields := Split(Stem(BaseName(path)), '_');
              (r.Ok? <==> ParseInt(fields[1]).Some?) &&
              (r.Ok? ==> r.value == ParseInt(fields[1]).value)
  {
    var name := BaseName(path);
    var dotParts := Split(name, '.');
    if |dotParts| != 2 then Err(BadExtension)
    else
      var fields := Split(dotParts[0], '_');
      if |fields| != 2 then Err(BadFieldCount)
      else
        match ParseInt(fields[1])
        case None => Err(NotAnInteger)
        case Some(n) => Ok(n)
  }

  /** A directory is empty or ends in '/'. */
  predicate IsDirPrefix(dir: string)
  {
    dir == [] || dir[|dir| - 1] == '/'
  }

  /** Whatever directory precedes a '/'-free name, the base name is that name. */
  lemma BaseNameAfterDir(dir: string, name: string)
    requires IsDirPrefix(dir) && '/' !in name
    ensures BaseName(dir + name) == name
  {
    if dir == [] {
      SplitNoSeparator(name, '/');
    } else {
      var parent := dir[..|dir| - 1];
      assert dir + name == parent + ['/'] + name;
      LastFieldAfterSeparator(parent, '/', name);
    }
  }

  /** The characters of `str(i)` are never separators of a file name. */
  lemma IntToStringSeparatorFree(i: int)
    ensures '/' !in IntToString(i) && '.' !in IntToString(i) && '_' !in IntToString(i)
  {
    var s := IntToString(i);
    forall k | 0 <= k < |s| ensures s[k] != '/' && s[k] != '.' && s[k] != '_' {
    }
  }

  /** A name `<stem>.<ext>` with a dot-free stem and extension splits into those two. */
  lemma SplitExtension(stem: string, ext: string)
    requires '.' !in stem && '.' !in ext
    ensures Split(stem + "." + ext, '.') == [stem, ext]
  {
    SplitAfterField(stem, '.', ext);
    SplitNoSeparator(ext, '.');
  }

  /** A stem `<word>_<n>_<m>` whose fields hold no '_' splits on '_' into its three fields. */
  lemma VoiceStemFields(word: string, sn: string, sm: string)
    requires '_' !in word && '_' !in sn && '_' !in sm
    ensures Split(word + ['_'] + sn + ['_'] + sm, '_') == [word, sn, sm]
  {
    var tail := sn + ['_'] + sm;
    SplitNoSeparator(sm, '_');
    SplitAfterField(sn, '_', sm);
    SplitAfterField(word, '_', tail);
    assert word + ['_'] + sn + ['_'] + sm == word + ['_'] + tail;
  }

  /** A stem `<word>_<n>` whose fields hold no '_' splits on '_' into its two fields. */
  lemma FaceStemFields(word: string, sn: string)
    requires '_' !in word && '_' !in sn
    ensures Split(word + "_" + sn, '_') == [word, sn]
  {
    SplitNoSeparator(sn, '_');
    SplitAfterField(word, '_', sn);
  }

  /**
   * A file `<dir><stem>.<ext>` whose stem and extension hold neither '/' nor
   * '.' has base name `<stem>.<ext>`, which splits on '.' into stem and extension.
   */
  lemma FileNameParts(dir: string, stem: string, ext: string)
    requires IsDirPrefix(dir)
    requires '/' !in stem && '.' !in stem
    requires '/' !in ext && '.' !in ext
    ensures BaseName(dir + stem + "." + ext) == stem + "." + ext
    ensures Split(stem + "." + ext, '.') == [stem, ext]
  {
    assert dir + stem + "." + ext == dir + (stem + "." + ext);
    BaseNameAfterDir(dir, stem + "." + ext);
    SplitExtension(stem, ext);
  }

  /**
   * Round trip of `get_n_m`: the numbers written into a voice file name,
   * under any directory and behind any leading word, are read back.
   */
  lemma GetNMRoundTrip(dir: string, word: string, n: int, m: int, ext: string)
    requires IsDirPrefix(dir)
    requires '/' !in word && '.' !in word && '_' !in word
    requires '/' !in ext && '.' !in ext
    ensures GetNM(dir + word + "_" + IntToString(n) + "_" + IntToString(m) + "." + ext) == Ok((n, m))
  {
    var sn, sm := IntToString(n), IntToString(m);
    var stem := word + "_" + sn + "_" + sm;
    assert dir + word + "_" + sn + "_" + sm + "." + ext == dir + stem + "." + ext;
    IntToStringSeparatorFree(n);
    IntToStringSeparatorFree(m);
    FileNameParts(dir, stem, ext);
    VoiceStemFields(word, sn, sm);
    IntRoundTrip(n);
    IntRoundTrip(m);
  }

  /** Round trip of `get_n`: the identity written into a face file name is read back. */
  lemma GetNRoundTrip(dir: string, word: string, n: int, ext: string)
    requires IsDirPrefix(dir)
    requires '/' !in word && '.' !in word && '_' !in word
    requires '/' !in ext && '.' !in ext
    ensures GetN(dir + word + "_" + IntToString(n) + "." + ext) == Ok(n)
  {
    var sn := IntToString(n);
    var stem := word + "_" + sn;
    assert dir + word + "_" + sn + "." + ext == dir + stem + "." + ext;
    IntToStringSeparatorFree(n);
    FileNameParts(dir, stem, ext);
    FaceStemFields(word, sn);
    IntRoundTrip(n);
  }

  /**
   * Trailing-slash normalisation: a directory is made to end in exactly
   * the slashes it had, plus one if it had none; an empty path raises.
   */
  function WithTrailingSlash(path: string): (r: Result<string, PathError>)
    ensures r.Err? <==> path == []
    ensures r.Ok? ==> |r.value| > 0 && r.value[|r.value| - 1] == '/'
    ensures r.Ok? ==> |path| <= |r.value| <= |path| + 1 && r.value[..|path|] == path
    ensures r.Ok? ==> (r.value == path <==> path[|path| - 1] == '/')
  {
    if path == [] then Err(EmptyPath)
    else if path[|path| - 1] != '/' then Ok(path + "/")
    else Ok(path)
  }

  /** Normalising a normalised directory changes nothing. */
  lemma WithTrailingSlashIdempotent(path: string)
    requires path != []
    ensures WithTrailingSlash(WithTrailingSlash(path).value) == WithTrailingSlash(path)
  {
  }

  /**
   * What `get_filenames` returns: for each directory in order, the matches of
   * the pattern under its normalised form, concatenated; the first empty
   * directory raises.
   */
  function GlobAll(paths: seq<string>, pattern: string, glob: string -> seq<string>)
    : (r: Result<seq<string>, PathError>)
    ensures r.Err? <==> exists i :: 0 <= i < |paths| && paths[i] == []
    ensures r.Err? ==> r.error == EmptyPath
    ensures r.Ok? ==> forall f :: f in r.value ==>
              exists i :: 0 <= i < |paths| && f in glob(WithTrailingSlash(paths[i]).value + pattern)
  {
    if |paths| == 0 then Ok([])
    else
      var init := paths[..|paths| - 1];
      match GlobAll(init, pattern, glob)
      case Err(e) =>
        assert exists i :: 0 <= i < |paths| && paths[i] == [] by {
          var i :| 0 <= i < |init| && init[i] == [];
          assert paths[i] == [];
        }
        Err(e)
      case Ok(found) =>
        match WithTrailingSlash(paths[|paths| - 1])
        case Err(e) => Err(e)
        case Ok(dir) =>
          var r := Ok(found + glob(dir + pattern));
          assert forall f :: f in r.value ==>
              exists i :: 0 <= i < |paths| && f in glob(WithTrailingSlash(paths[i]).value + pattern) by {
            forall f | f in r.value
              ensures exists i :: 0 <= i < |paths| && f in glob(WithTrailingSlash(paths[i]).value + pattern)
            {
              if f in found {
                var i :| 0 <= i < |init| && f in glob(WithTrailingSlash(init[i]).value + pattern);
                assert paths[i] == init[i];
              } else {
                assert f in glob(WithTrailingSlash(paths[|paths| - 1]).value + pattern);
              }
            }
          }
          r
  }

  /** `get_filenames`: glob the pattern under every directory, accumulating the matches. */
  method GetFilenames(paths: seq<string>, pattern: string, glob: string -> seq<string>)
    returns (r: Result<seq<string>, PathError>)
    ensures r == GlobAll(paths, pattern, glob)
  {
    var filenames := [];
    for i := 0 to |paths|
      invariant GlobAll(paths[..i], pattern, glob) == Ok(filenames)
    {
      var path := paths[i];
      assert paths[..i + 1][..i] == paths[..i];
      if path == [] {
        assert paths[i] == [];
        assert GlobAll(paths, pattern, glob).Err?;
        r := Err(EmptyPath);
        return;
      }
      if path[|path| - 1] != '/' {
        path := path + "/";
      }
      filenames := filenames + glob(path + pattern);
    }
    assert paths[..|paths|] == paths;
    r := Ok(filenames);
  }
}
