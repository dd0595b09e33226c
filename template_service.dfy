/**
 * `TemplateService`: a registry from template id to file name, checked at construction,
 * and a memo cache of compiled templates filled on first use, emptied on demand and
 * warmed by compiling every registered template.
 *
 * The file system is a map from resolved path to file text, passed to each call that reads
 * it. `handlebars.compile` parses lazily (on the template's first call), so compiling the
 * text read never fails here; a compiled template is identified by its source text. Calling
 * a template (which parses it) and converting MJML to HTML in strict mode are parameters
 * that may throw; their messages are the parameters' business.
 */
module TemplateService {
  import opened Wrappers
  import opened NotificationTypes

  /** `templateRegistry`, in declaration order. */
  const Registry: seq<(string, string)> := [("WELCOME", "welcome.mjml"), ("ACCOUNT_VERIFICATION", "account-verification.mjml")]

  /** The registry as the object `templateRegistry[id]` reads. */
  function RegistryMap(): map<string, string> {
    map[Registry[0].0 := Registry[0].1, Registry[1].0 := Registry[1].1]
  }

  /** `Object.keys(templateRegistry)`. */
  function RegisteredIds(): seq<string> {
    [Registry[0].0, Registry[1].0]
  }

  /** The default `basePath`. */
  const DefaultBasePath: string := "./templates"

  /** `path.resolve(basePath, file)`, reduced to joining the two. */
  function ResolvePath(basePath: string, file: string): string {
    basePath + "/" + file
  }

  /** A compiled template, identified by the source it was compiled from. */
  datatype Delegate = Compiled(source: string)

  /** The errors the service throws. */
  datatype TemplateError =
    | TemplateFileNotFound(file: string, id: string)
    | NotRegistered(id: string)
    | CompileFailed(id: string)
    | TemplateThrew(message: string)
    | MjmlThrew(message: string)

  /** `validateTemplates`: the first registered template whose file is missing, if any. */
  function MissingTemplate(basePath: string, files: map<string, string>): (r: Option<TemplateError>)
    ensures r.None? <==> forall i :: 0 <= i < |Registry| ==> ResolvePath(basePath, Registry[i].1) in files
    ensures r.Some? ==> exists i :: 0 <= i < |Registry| && r.value == TemplateFileNotFound(Registry[i].1, Registry[i].0)
  {
    if ResolvePath(basePath, Registry[0].1) !in files then Some(TemplateFileNotFound(Registry[0].1, Registry[0].0))
    else if ResolvePath(basePath, Registry[1].1) !in files then Some(TemplateFileNotFound(Registry[1].1, Registry[1].0))
    else None
  }

  /**
   * `getTemplate(id)` on the cache `cache` with the file system `files`: the result and the
   * cache afterwards.
   */
  function TemplateFor(cache: map<string, Delegate>, basePath: string, files: map<string, string>, id: string)
    : (Result<Delegate, TemplateError>, map<string, Delegate>)
  {
    if id in cache then (Ok(cache[id]), cache)
    else
      match GetProperty(RegistryMap(), id)
      case Undefined => (Err(NotRegistered(id)), cache)
      case Inherited => (Err(CompileFailed(id)), cache)
      case Own(file) =>
        var path := ResolvePath(basePath, file);
        if path !in files then (Err(CompileFailed(id)), cache)
        else (Ok(Compiled(files[path])), cache[id := Compiled(files[path])])
  }

  /** `precompileAll`: `getTemplate` for each registered id in order, stopping at the first throw. */
  function PrecompileFrom(cache: map<string, Delegate>, basePath: string, files: map<string, string>, ids: seq<string>)
    : (Result<(), TemplateError>, map<string, Delegate>)
    decreases |ids|
  {
    if ids == [] then (Ok(()), cache)
    else
      var (r, after) := TemplateFor(cache, basePath, files, ids[0]);
      if r.Err? then (Err(r.error), after) else PrecompileFrom(after, basePath, files, ids[1..])
  }

  /** Every cached id is a registered one. */
  ghost predicate CacheRegistered(cache: map<string, Delegate>) {
    forall id :: id in cache ==> id in RegistryMap()
  }

  /**
   * The cache paths of `getTemplate`: a cached id returns the stored template without
   * reading any file; an unregistered id throws "not registered"; a registered id whose
   * file cannot be read throws the wrapped error; in both failures the cache is unchanged.
   * A successful compile returns the template of the file's text and caches exactly it.
   */
  lemma TemplateForSpec(cache: map<string, Delegate>, basePath: string, files: map<string, string>,
                        otherFiles: map<string, string>, id: string)
    ensures var (r, after) := TemplateFor(cache, basePath, files, id);
      && (id in cache ==> r == Ok(cache[id]) && after == cache && TemplateFor(cache, basePath, otherFiles, id) == (r, after))
      && (id !in cache && id !in RegistryMap() && id !in InheritedNames ==> r == Err(NotRegistered(id)))
      && (r.Err? ==> after == cache)
      && (id !in cache && r.Ok? ==>
            && id in RegistryMap() && ResolvePath(basePath, RegistryMap()[id]) in files
            && r.value == Compiled(files[ResolvePath(basePath, RegistryMap()[id])])
            && after == cache[id := r.value])
      && (id !in cache && id in RegistryMap() ==>
            (r.Ok? <==> ResolvePath(basePath, RegistryMap()[id]) in files))
  {
  }

  /** Every operation keeps the cache to registered ids. */
  lemma TemplateForKeepsRegistered(cache: map<string, Delegate>, basePath: string, files: map<string, string>, id: string)
    requires CacheRegistered(cache)
    ensures CacheRegistered(TemplateFor(cache, basePath, files, id).1)
    ensures TemplateFor(cache, basePath, files, id).1.Keys <= cache.Keys + {id}
  {
  }

  /**
   * Precompiling from a list of ids: on success every one of them is cached, and nothing
   * cached before is lost or replaced, whether it succeeds or not.
   */
  lemma {:induction false} PrecompileFromSpec(cache: map<string, Delegate>, basePath: string, files: map<string, string>,
                                              ids: seq<string>)
    ensures var (r, after) := PrecompileFrom(cache, basePath, files, ids);
      && cache.Keys <= after.Keys
      && (forall id :: id in cache ==> after[id] == cache[id])
      && (r.Ok? ==> forall i :: 0 <= i < |ids| ==> ids[i] in after)
    decreases |ids|
  {
    if ids != [] {
      var (r0, after0) := TemplateFor(cache, basePath, files, ids[0]);
      if r0.Ok? {
        PrecompileFromSpec(after0, basePath, files, ids[1..]);
        assert ids[0] in after0;
        assert forall i :: 1 <= i < |ids| ==> ids[i] == ids[1..][i - 1];
      }
    }
  }

  /**
   * After a successful `precompileAll` every registered template is cached; and it
   * succeeds whenever every registered file is readable.
   */
  lemma PrecompileAllSpec(cache: map<string, Delegate>, basePath: string, files: map<string, string>)
    ensures var (r, after) := PrecompileFrom(cache, basePath, files, RegisteredIds());
      && (r.Ok? ==> forall id :: id in RegistryMap() ==> id in after)
      && ((forall i :: 0 <= i < |Registry| ==> ResolvePath(basePath, Registry[i].1) in files) ==> r.Ok?)
  {
    PrecompileFromSpec(cache, basePath, files, RegisteredIds());
    var ids := RegisteredIds();
    assert ids[1..] == [ids[1]];
    assert ids[1..][1..] == [];
  }

  class TemplateService {
    /** `cache`: compiled templates by id. */
    var cache: map<string, Delegate>
    const basePath: string

    /** The constructor once `validateTemplates` has passed. */
    constructor (basePath: string)
      ensures this.basePath == basePath && cache == map[]
    {
      this.basePath := basePath;
      cache := map[];
    }

    /** `getTemplate`: the result and the new cache are those of `TemplateFor`. */
    method GetTemplate(id: string, files: map<string, string>) returns (r: Result<Delegate, TemplateError>)
      modifies this
      ensures (r, cache) == TemplateFor(old(cache), basePath, files, id)
    {
      if id in cache {
        return Ok(cache[id]);
      }
      var file := GetProperty(RegistryMap(), id);
      if file.Undefined? {
        return Err(NotRegistered(id));
      }
      if file.Inherited? {
        return Err(CompileFailed(id));
      }
      var path := ResolvePath(basePath, file.value);
      if path !in files {
        return Err(CompileFailed(id));
      }
      var compiled := Compiled(files[path]);
      cache := cache[id := compiled];
      r := Ok(compiled);
    }

    /**
     * `generateMarkup`: the template called on the data (`run`, which parses the template
     * and may throw), then the MJML converted in strict mode (`convert`, which throws on
     * invalid MJML). Nothing is caught: the first throw is the outcome. The cache is
     * `getTemplate`'s whatever happens after it.
     */
    method GenerateMarkup(id: string, data: Json, files: map<string, string>,
                          run: (Delegate, Json) -> Result<string, string>, convert: string -> Result<string, string>)
      returns (r: Result<string, TemplateError>)
      modifies this
      ensures cache == TemplateFor(old(cache), basePath, files, id).1
      ensures var got := TemplateFor(old(cache), basePath, files, id).0;
        && (got.Err? ==> r == Err(got.error))
        && (got.Ok? && run(got.value, data).Err? ==> r == Err(TemplateThrew(run(got.value, data).error)))
        && (got.Ok? && run(got.value, data).Ok? && convert(run(got.value, data).value).Err? ==>
              r == Err(MjmlThrew(convert(run(got.value, data).value).error)))
        && (r.Ok? <==> got.Ok? && run(got.value, data).Ok? && convert(run(got.value, data).value).Ok?)
        && (r.Ok? ==> r.value == convert(run(got.value, data).value).value)
    {
      var template := GetTemplate(id, files);
      if template.Err? {
        return Err(template.error);
      }
      var mjml := run(template.value, data);
      if mjml.Err? {
        return Err(TemplateThrew(mjml.error));
      }
      var html := convert(mjml.value);
      if html.Err? {
        return Err(MjmlThrew(html.error));
      }
      r := Ok(html.value);
    }

    /** `clearCache`. */
    method ClearCache()
      modifies this
      ensures cache == map[]
    {
      cache := map[];
    }

    /** `precompileAll`: `getTemplate` for each registered id in order, stopping at the first throw. */
    method PrecompileAll(files: map<string, string>) returns (r: Result<(), TemplateError>)
      modifies this
      ensures (r, cache) == PrecompileFrom(old(cache), basePath, files, RegisteredIds())
    {
      var ids := RegisteredIds();
      var i := 0;
      while i < |ids|
        invariant 0 <= i <= |ids|
        invariant PrecompileFrom(cache, basePath, files, ids[i..]) == PrecompileFrom(old(cache), basePath, files, ids)
      {
        assert ids[i..][1..] == ids[i + 1..];
        var step := GetTemplate(ids[i], files);
        if step.Err? {
          return Err(step.error);
        }
        i := i + 1;
      }
      r := Ok(());
    }
  }

  /** `new TemplateService(basePath)`: throws when a registered template file is missing. */
  method NewTemplateService(basePath: string, files: map<string, string>) returns (r: Result<TemplateService, TemplateError>)
    ensures r.Err? <==> MissingTemplate(basePath, files).Some?
    ensures r.Err? ==> r.error == MissingTemplate(basePath, files).value
    ensures r.Ok? ==> fresh(r.value) && r.value.basePath == basePath && r.value.cache == map[]
  {
    var missing := MissingTemplate(basePath, files);
    if missing.Some? {
      return Err(missing.value);
    }
    var service := new TemplateService(basePath);
    r := Ok(service);
  }
}
