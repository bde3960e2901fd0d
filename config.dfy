/** The file-backed configuration: a path cell and a data cell, each a
    `State`, with the document format chosen by the file's extension.

    Serialization is opaque: a `Codec` supplies the deserializer (None when
    the text does not deserialize) and the serializer of each format. The
    file system is a map from path to contents; `is_file` is membership. */
module Configs {
  import opened Basics
  import opened States
  import opened Paths

  type FileSystem = map<string, string>

  /** Which of the `toml-config` and `json-config` features are enabled. */
  datatype Features = Features(toml: bool, json: bool)

  datatype Codec<!T> = Codec(decode: (Format, string) -> Option<T>, encode: (Format, T) -> string)

  /** The string `parse` and `write` match on: the path's extension, "TOML"
      when it has none, upper-cased. */
  function FormatTag(path: string): (tag: string)
    ensures Extension(FileName(path)).None? ==> tag == "TOML"
    ensures Extension(FileName(path)).Some? ==> tag == Upper(Extension(FileName(path)).value)
  {
    assert Upper("TOML") == "TOML";
    Upper(Extension(FileName(path)).GetOr("TOML"))
  }

  /** The format for a path: TOML or JSON when the tag names an enabled
      format, otherwise the `ConfigExt` error carrying the tag. */
  function SelectFormat(path: string, features: Features): (r: Result<Format>)
    ensures r == Ok(Toml) <==> FormatTag(path) == "TOML" && features.toml
    ensures r == Ok(Json) <==> FormatTag(path) == "JSON" && features.json
    ensures r.Err? ==> r.error == ConfigExt(FormatTag(path))
  {
    var tag := FormatTag(path);
    if tag == "TOML" && features.toml then Ok(Toml)
    else if tag == "JSON" && features.json then Ok(Json)
    else Err(ConfigExt(tag))
  }

  /** A path without an extension is read and written as TOML. */
  lemma NoExtensionIsToml(path: string, features: Features)
    requires Extension(FileName(path)).None? && features.toml
    ensures SelectFormat(path, features) == Ok(Toml)
  {
  }

  /** TOML is selected exactly when the feature is on and the extension is
      missing or spells "toml" in any mix of cases. */
  lemma TomlIgnoresCase(path: string, features: Features)
    ensures SelectFormat(path, features) == Ok(Toml) <==>
              features.toml &&
              (Extension(FileName(path)).None? || SpellsIgnoringCase(Extension(FileName(path)).value, "toml"))
  {
    assert Upper("toml") == "TOML";
    if Extension(FileName(path)).Some? {
      UpperMatches(Extension(FileName(path)).value, "toml");
    }
  }

  /** JSON is selected exactly when the feature is on and the extension
      spells "json" in any mix of cases. */
  lemma JsonIgnoresCase(path: string, features: Features)
    ensures SelectFormat(path, features) == Ok(Json) <==>
              features.json && Extension(FileName(path)).Some? &&
              SpellsIgnoringCase(Extension(FileName(path)).value, "json")
  {
    assert Upper("json") == "JSON";
    if Extension(FileName(path)).Some? {
      UpperMatches(Extension(FileName(path)).value, "json");
    } else {
      assert FormatTag(path) == "TOML";
    }
  }

  /** The data `parse` produces from a file's contents. */
  function ParseData<T>(path: string, contents: string, codec: Codec<T>, features: Features): (r: Result<T>)
    ensures r.Ok? <==>
              SelectFormat(path, features).Ok? && codec.decode(SelectFormat(path, features).value, contents).Some?
    ensures r.Ok? ==> codec.decode(SelectFormat(path, features).value, contents) == Some(r.value)
    ensures r.Err? && SelectFormat(path, features).Err? ==> r.error == ConfigExt(FormatTag(path))
    ensures r.Err? && SelectFormat(path, features).Ok? ==> r.error == Parse(SelectFormat(path, features).value)
  {
    match SelectFormat(path, features)
    case Err(e) => Err(e)
    case Ok(format) =>
      match codec.decode(format, contents)
      case Some(d) => Ok(d)
      case None => Err(Parse(format))
  }

  /** Writing a value and parsing the file back gives the value, for a codec
      that round-trips it in the path's format. */
  lemma WriteThenParse<T>(path: string, x: T, codec: Codec<T>, features: Features)
    requires SelectFormat(path, features).Ok?
    requires codec.decode(SelectFormat(path, features).value,
                          codec.encode(SelectFormat(path, features).value, x)) == Some(x)
    ensures ParseData(path, codec.encode(SelectFormat(path, features).value, x), codec, features) == Ok(x)
  {
  }

  class Config<T> {
    const path: State<string>
    const data: State<T>

    /** Two distinct cells, each holding one committed value, neither locked. */
    ghost predicate Valid()
      reads this, path, data, path.lock, data.lock
    {
      && path as object != data as object
      && path.lock != data.lock
      && path.Valid() && data.Valid()
      && !path.IsLocked() && !data.IsLocked()
    }

    /** The derived `Default`: an empty path and the data type's default. */
    constructor Default(dflt: T)
      ensures Valid() && path.snapVal == "" && data.snapVal == dflt
      ensures fresh(path) && fresh(path.lock) && fresh(data) && fresh(data.lock)
    {
      path := new State<string>.Default("");
      data := new State<T>.Default(dflt);
    }

    /** The configuration `parse` builds from a path and its data. */
    constructor FromParts(filePath: string, value: T)
      ensures Valid() && path.snapVal == filePath && data.snapVal == value
      ensures fresh(path) && fresh(path.lock) && fresh(data) && fresh(data.lock)
    {
      path := new State<string>.From(filePath);
      data := new State<T>.From(value);
    }

    /** `get`: the committed data. */
    method Get() returns (v: T)
      requires Valid()
      ensures v == data.snapVal
    {
      v := data.Get();
    }

    /** `lock`: a guard over the data cell, seeded with the committed data. */
    method Lock() returns (g: StateGuard<T>)
      requires Valid()
      modifies data.lock
      ensures fresh(g) && g.owner == data && g.live && g.data == data.snapVal
      ensures data.IsLocked()
    {
      g := data.Lock();
    }

    /** `parse`: select the format from the extension, deserialize, and build
        a configuration holding the path and the data. */
    static method Parse(filePath: string, contents: string, codec: Codec<T>, features: Features)
      returns (r: Result<Config<T>>)
      ensures r.Ok? <==> ParseData(filePath, contents, codec, features).Ok?
      ensures r.Err? ==> r.error == ParseData(filePath, contents, codec, features).error
      ensures r.Ok? ==> fresh(r.value) && fresh(r.value.path) && fresh(r.value.data)
      ensures r.Ok? ==> r.value.Valid() && r.value.path.snapVal == filePath
                        && r.value.data.snapVal == ParseData(filePath, contents, codec, features).value
    {
      var parsed := ParseData(filePath, contents, codec, features);
      if parsed.Err? {
        r := Err(parsed.error);
      } else {
        var cfg := new Config<T>.FromParts(filePath, parsed.value);
        r := Ok(cfg);
      }
    }

    /** `read`: parse the file's contents. A missing file, or one that
        `read_to_string` cannot read (`readOk` false: no permission, or text
        that is not UTF-8), is an I/O error. */
    static method Read(filePath: string, fs: FileSystem, codec: Codec<T>, features: Features, readOk: bool)
      returns (r: Result<Config<T>>)
      ensures filePath !in fs || !readOk ==> r == Err(Io)
      ensures filePath in fs && readOk ==> (r.Ok? <==> ParseData(filePath, fs[filePath], codec, features).Ok?)
      ensures filePath in fs && readOk && r.Err? ==> r.error == ParseData(filePath, fs[filePath], codec, features).error
      ensures r.Ok? ==> fresh(r.value) && fresh(r.value.path) && fresh(r.value.data)
      ensures r.Ok? ==> filePath in fs && r.value.Valid() && r.value.path.snapVal == filePath
                        && r.value.data.snapVal == ParseData(filePath, fs[filePath], codec, features).value
    {
      if filePath !in fs || !readOk {
        return Err(Io);
      }
      r := Parse(filePath, fs[filePath], codec, features);
    }

    /** `write`: store the new path first, then select the format, serialize
        the data and write the file. The path is updated even when the
        extension is unsupported or the write fails. */
    method Write(filePath: string, fs: FileSystem, codec: Codec<T>, features: Features, writeOk: bool)
      returns (r: Result<()>, fs': FileSystem)
      requires Valid()
      modifies path, path.lock
      ensures Valid() && path.snapVal == filePath
      ensures SelectFormat(filePath, features).Err? ==>
                r == Err(SelectFormat(filePath, features).error) && fs' == fs
      ensures SelectFormat(filePath, features).Ok? && !writeOk ==> r == Err(Io) && fs' == fs
      ensures SelectFormat(filePath, features).Ok? && writeOk ==>
                r == Ok(()) && fs' == fs[filePath := codec.encode(SelectFormat(filePath, features).value, data.snapVal)]
    {
      path.Set(filePath);
      var p := path.GetCloned();
      match SelectFormat(p, features)
      case Err(e) =>
        return Err(e), fs;
      case Ok(format) =>
        var d := data.Get();
        var contents := codec.encode(format, d);
        if !writeOk {
          return Err(Io), fs;
        }
        r, fs' := Ok(()), fs[p := contents];
    }

    /** `save`: write to the stored path. */
    method Save(fs: FileSystem, codec: Codec<T>, features: Features, writeOk: bool)
      returns (r: Result<()>, fs': FileSystem)
      requires Valid()
      modifies path, path.lock
      ensures Valid() && path.snapVal == old(path.snapVal)
      ensures SelectFormat(path.snapVal, features).Err? ==>
                r == Err(SelectFormat(path.snapVal, features).error) && fs' == fs
      ensures SelectFormat(path.snapVal, features).Ok? && !writeOk ==> r == Err(Io) && fs' == fs
      ensures SelectFormat(path.snapVal, features).Ok? && writeOk ==>
                r == Ok(()) && fs' == fs[path.snapVal := codec.encode(SelectFormat(path.snapVal, features).value, data.snapVal)]
    {
      var p := path.GetCloned();
      r, fs' := Write(p, fs, codec, features, writeOk);
    }

    /** `update`: read the stored path and commit the data read; on an error
        nothing changes. The path is left as it is. */
    method Update(fs: FileSystem, codec: Codec<T>, features: Features, readOk: bool) returns (r: Result<()>)
      requires Valid()
      modifies data, data.lock
      ensures Valid() && path.snapVal == old(path.snapVal)
      ensures path.snapVal !in fs || !readOk ==> r == Err(Io) && data.snapVal == old(data.snapVal)
      ensures path.snapVal in fs && readOk ==>
                match ParseData(path.snapVal, fs[path.snapVal], codec, features)
                case Ok(d) => r == Ok(()) && data.snapVal == d
                case Err(e) => r == Err(e) && data.snapVal == old(data.snapVal)
    {
      var p := path.GetCloned();
      var read := Read(p, fs, codec, features, readOk);
      match read
      case Err(e) =>
        r := Err(e);
      case Ok(cfg) =>
        var d := cfg.data.Get();
        data.Set(d);
        r := Ok(());
    }

    /** `new`: read the file when it exists (`readOk` says whether reading
        it succeeds); otherwise write a default
        configuration to it and return that. */
    static method New(filePath: string, fs: FileSystem, codec: Codec<T>, features: Features,
                      dflt: T, readOk: bool, writeOk: bool)
      returns (r: Result<Config<T>>, fs': FileSystem)
      ensures filePath in fs ==> fs' == fs
      ensures filePath in fs && !readOk ==> r == Err(Io)
      ensures filePath in fs && readOk ==> (r.Ok? <==> ParseData(filePath, fs[filePath], codec, features).Ok?)
      ensures filePath in fs && r.Ok? ==>
                r.value.data.snapVal == ParseData(filePath, fs[filePath], codec, features).value
      ensures filePath !in fs && SelectFormat(filePath, features).Err? ==>
                r == Err(SelectFormat(filePath, features).error) && fs' == fs
      ensures filePath !in fs && SelectFormat(filePath, features).Ok? ==>
                (r.Ok? <==> writeOk) &&
                (writeOk ==> fs' == fs[filePath := codec.encode(SelectFormat(filePath, features).value, dflt)])
      ensures filePath in fs && readOk && r.Err? ==> r.error == ParseData(filePath, fs[filePath], codec, features).error
      ensures filePath !in fs && SelectFormat(filePath, features).Ok? && !writeOk ==> r == Err(Io) && fs' == fs
      ensures filePath !in fs && r.Ok? ==> r.value.data.snapVal == dflt
      ensures r.Ok? ==> fresh(r.value) && r.value.Valid() && r.value.path.snapVal == filePath
    {
      if filePath in fs {
        r := Read(filePath, fs, codec, features, readOk);
        fs' := fs;
      } else {
        var cfg := new Config<T>.Default(dflt);
        var w;
        w, fs' := cfg.Write(filePath, fs, codec, features, writeOk);
        if w.Err? {
          r := Err(w.error);
        } else {
          r := Ok(cfg);
        }
      }
    }
  }
}
