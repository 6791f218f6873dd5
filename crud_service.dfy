/**
 * The CRUD generator service: for a table with columns it creates the
 * module's folders under `src/gen`, copies the five page templates into
 * them (the template engine hands template text back unchanged) and returns
 * a manifest of what it wrote. The file system is a `Workspace` of files
 * and directories; the column query is a `Catalog` that records the tables
 * it was asked about.
 */
module CrudService {
  import opened Wrappers
  import opened JsValue

  /** The file system the service writes to, rooted anywhere; `files` maps a path to its text. */
  class Workspace {
    var files: map<string, string>
    var dirs: set<string>

    /** No path is both a file and a directory. */
    ghost predicate Valid()
      reads this
    {
      forall p :: p in files ==> p !in dirs
    }

    constructor(files0: map<string, string>, dirs0: set<string>)
      requires forall p :: p in files0 ==> p !in dirs0
      ensures Valid() && files == files0 && dirs == dirs0
    {
      files := files0;
      dirs := dirs0;
    }

    /** `Deno.mkdir(path, { recursive: true })`: fails only where a file is in the way; an existing directory is fine. */
    method Mkdir(path: string) returns (ok: bool)
      requires Valid()
      modifies this
      ensures Valid()
      ensures ok <==> path !in old(files)
      ensures dirs == if ok then old(dirs) + {path} else old(dirs)
      ensures files == old(files)
    {
      if path in files {
        return false;
      }
      dirs := dirs + {path};
      ok := true;
    }

    /** `Deno.readTextFile(path)`; `None` where it throws. */
    method ReadTextFile(path: string) returns (text: Option<string>)
      ensures text.Some? <==> path in files
      ensures text.Some? ==> text.value == files[path]
    {
      if path in files {
        return Some(files[path]);
      }
      return None;
    }

    /** `Deno.writeTextFile(dir + "/" + name, text)`: fails where the directory is missing or the path is a directory. */
    method WriteTextFile(dir: string, name: string, text: string) returns (ok: bool)
      requires Valid()
      modifies this
      ensures Valid()
      ensures ok <==> dir in old(dirs) && dir + "/" + name !in old(dirs)
      ensures files == if ok then old(files)[dir + "/" + name := text] else old(files)
      ensures dirs == old(dirs)
    {
      var path := dir + "/" + name;
      if dir !in dirs || path in dirs {
        return false;
      }
      files := files[path := text];
      ok := true;
    }
  }

  /** The columns of each table of the database, and the tables the service has asked about so far. */
  class Catalog {
    const columns: map<string, seq<Value>>
    var asked: seq<string>

    constructor(columns0: map<string, seq<Value>>)
      ensures columns == columns0 && asked == []
    {
      columns := columns0;
      asked := [];
    }

    /** The rows of `INFORMATION_SCHEMA.COLUMNS` for a table, in ordinal order; none for an unknown table. */
    function ColumnsOf(table: string): seq<Value>
      reads this
    {
      if table in columns then columns[table] else []
    }

    /** The column query for one table. */
    method Query(table: string) returns (rows: seq<Value>)
      modifies this
      ensures rows == ColumnsOf(table)
      ensures asked == old(asked) + [table]
    {
      rows := ColumnsOf(table);
      asked := asked + [table];
    }
  }

  /** The descriptor the validator accepted. */
  datatype CrudData = CrudData(name: string, moduleName: string, table: string, controller: string, crudType: int)

  datatype CrudError =
    | TableRequired              // `表名不能为空`
    | NoColumns(table: string)   // `表 ${table} 不存在或没有字段`
    | TemplateMissing(path: string)
    | WriteFailed(path: string)

  /** The `data` of the answer: what was generated, with paths relative to the working directory. */
  datatype Manifest = Manifest(
    tableName: string, moduleName: string, controller: string, mainFolder: string, files: seq<string>, fieldsCount: nat)

  function MainFolder(moduleName: string): string {
    "src/gen/" + moduleName
  }

  /** The five files of the manifest, in the order they are written. */
  function ManifestFiles(moduleName: string): (r: seq<string>)
    ensures |r| == 5
  {
    var main := MainFolder(moduleName);
    [main + "/index.vue", main + "/components/Dialog.vue",
     main + "/locale/bo-CN.ts", main + "/locale/en-US.ts", main + "/locale/zh-CN.ts"]
  }

  function BaseDir(cwd: string, moduleName: string): string { cwd + "/src/gen/" + moduleName }
  function ComponentsDir(cwd: string, moduleName: string): string { BaseDir(cwd, moduleName) + "/components" }
  function LocaleDir(cwd: string, moduleName: string): string { BaseDir(cwd, moduleName) + "/locale" }

  /** The folder each file is written into, in write order. */
  function TargetDirs(cwd: string, moduleName: string): (r: seq<string>)
    ensures |r| == 5
  {
    [BaseDir(cwd, moduleName), ComponentsDir(cwd, moduleName),
     LocaleDir(cwd, moduleName), LocaleDir(cwd, moduleName), LocaleDir(cwd, moduleName)]
  }

  /** The absolute paths written, in order. */
  function WrittenPaths(cwd: string, moduleName: string): (r: seq<string>)
    ensures |r| == 5
  {
    [BaseDir(cwd, moduleName) + "/" + "index.vue",
     ComponentsDir(cwd, moduleName) + "/" + "Dialog.vue",
     LocaleDir(cwd, moduleName) + "/" + "bo-CN.ts",
     LocaleDir(cwd, moduleName) + "/" + "en-US.ts",
     LocaleDir(cwd, moduleName) + "/" + "zh-CN.ts"]
  }

  /** The template each file is copied from, in the same order. */
  function TemplatePaths(cwd: string): (r: seq<string>)
    ensures |r| == 5
  {
    var t := cwd + "/src/templates/crud";
    [t + "/index.vue", t + "/components/dialog.vue",
     t + "/locale/bo-CN.ts", t + "/locale/en-US.ts", t + "/locale/zh-CN.ts"]
  }

  /** `files` after `texts[i]` is written to `paths[i]`, in order. */
  function Copied(files: map<string, string>, paths: seq<string>, texts: seq<string>): (r: map<string, string>)
    requires |paths| == 5 && |texts| == 5
    ensures r.Keys == files.Keys + {paths[0], paths[1], paths[2], paths[3], paths[4]}
  {
    files[paths[0] := texts[0]][paths[1] := texts[1]][paths[2] := texts[2]][paths[3] := texts[3]][paths[4] := texts[4]]
  }

  /** `files` after the first `k` of the writes. */
  function CopiedFirst(files: map<string, string>, paths: seq<string>, texts: seq<string>, k: nat): (r: map<string, string>)
    requires k <= |paths| && k <= |texts|
  {
    if k == 0 then files else CopiedFirst(files, paths, texts, k - 1)[paths[k - 1] := texts[k - 1]]
  }

  /** One more write on top of the first `k`. */
  lemma CopiedFirstStep(files: map<string, string>, paths: seq<string>, texts: seq<string>, k: nat)
    requires k < |paths| && k < |texts|
    ensures CopiedFirst(files, paths, texts, k + 1) == CopiedFirst(files, paths, texts, k)[paths[k] := texts[k]]
  {
  }

  /** All five writes in a row are the five copies. */
  lemma CopiedFirstAll(files: map<string, string>, paths: seq<string>, texts: seq<string>)
    requires |paths| == 5 && |texts| == 5
    ensures CopiedFirst(files, paths, texts, 5) == Copied(files, paths, texts)
  {
    var m1 := files[paths[0] := texts[0]];
    assert CopiedFirst(files, paths, texts, 1) == m1;
    var m2 := m1[paths[1] := texts[1]];
    assert CopiedFirst(files, paths, texts, 2) == m2;
    var m3 := m2[paths[2] := texts[2]];
    assert CopiedFirst(files, paths, texts, 3) == m3;
    var m4 := m3[paths[3] := texts[3]];
    assert CopiedFirst(files, paths, texts, 4) == m4;
  }

  /** With five different targets, each target ends up holding its own text. */
  lemma CopiedAt(files: map<string, string>, paths: seq<string>, texts: seq<string>)
    requires |paths| == 5 && |texts| == 5
    requires forall i, j :: 0 <= i < j < 5 ==> paths[i] != paths[j]
    ensures forall i :: 0 <= i < 5 ==> Copied(files, paths, texts)[paths[i]] == texts[i]
  {
  }

  /** The text of each template, in order; present only when all five exist. */
  function TemplateTexts(files: map<string, string>, cwd: string): (r: seq<string>)
    requires forall i :: 0 <= i < 5 ==> TemplatePaths(cwd)[i] in files
    ensures |r| == 5 && forall i :: 0 <= i < 5 ==> r[i] == files[TemplatePaths(cwd)[i]]
  {
    seq(5, i requires 0 <= i < 5 => files[TemplatePaths(cwd)[i]])
  }

  /** The file map after the five copies, each template's text written to its target, in order. */
  function Generated(files: map<string, string>, cwd: string, moduleName: string): map<string, string>
    requires forall i :: 0 <= i < 5 ==> TemplatePaths(cwd)[i] in files
  {
    Copied(files, WrittenPaths(cwd, moduleName), TemplateTexts(files, cwd))
  }

  /** The module folder, absolute, is the main folder under the working directory. */
  lemma BaseDirUnderCwd(cwd: string, moduleName: string)
    ensures BaseDir(cwd, moduleName) == cwd + "/" + MainFolder(moduleName)
  {
    assert "/src/gen/" == "/" + "src/gen/";
  }

  lemma PathBelow(base: string, cwd: string, main: string, dir: string, name: string, suffix: string)
    requires base == cwd + "/" + main && suffix == dir + "/" + name
    ensures base + dir + "/" + name == cwd + "/" + (main + suffix)
  {
  }

  /** Each manifest entry is the file written at the same step, relative to the working directory. */
  lemma ManifestMatchesWrites(cwd: string, moduleName: string)
    ensures forall i :: 0 <= i < 5 ==> WrittenPaths(cwd, moduleName)[i] == cwd + "/" + ManifestFiles(moduleName)[i]
  {
    var base, main := BaseDir(cwd, moduleName), MainFolder(moduleName);
    BaseDirUnderCwd(cwd, moduleName);
    PathBelow(base, cwd, main, "", "index.vue", "/index.vue");
    assert base + "" == base;
    PathBelow(base, cwd, main, "/components", "Dialog.vue", "/components/Dialog.vue");
    PathBelow(base, cwd, main, "/locale", "bo-CN.ts", "/locale/bo-CN.ts");
    PathBelow(base, cwd, main, "/locale", "en-US.ts", "/locale/en-US.ts");
    PathBelow(base, cwd, main, "/locale", "zh-CN.ts", "/locale/zh-CN.ts");
  }

  /** Every manifest entry lies inside the main folder. */
  lemma ManifestInMainFolder(moduleName: string)
    ensures forall i :: 0 <= i < 5 ==>
      |ManifestFiles(moduleName)[i]| > |MainFolder(moduleName)| + 1 &&
      ManifestFiles(moduleName)[i][..|MainFolder(moduleName)| + 1] == MainFolder(moduleName) + "/"
  {
    var main := MainFolder(moduleName);
    forall i | 0 <= i < 5
      ensures |ManifestFiles(moduleName)[i]| > |main| + 1 && ManifestFiles(moduleName)[i][..|main| + 1] == main + "/"
    {
      var f := ManifestFiles(moduleName)[i];
      assert f[|main|] == '/';
      assert f[..|main| + 1] == main + [f[|main|]];
    }
  }

  /**
   * The generated files are exactly the five written paths; every other file
   * keeps its text.
   */
  lemma GeneratedFiles(files: map<string, string>, cwd: string, moduleName: string)
    requires forall i :: 0 <= i < 5 ==> TemplatePaths(cwd)[i] in files
    ensures Generated(files, cwd, moduleName).Keys == files.Keys + set i | 0 <= i < 5 :: WrittenPaths(cwd, moduleName)[i]
    ensures forall p :: p in files && p !in WrittenPaths(cwd, moduleName) ==> Generated(files, cwd, moduleName)[p] == files[p]
  {
    var w := WrittenPaths(cwd, moduleName);
    assert (set i | 0 <= i < 5 :: w[i]) == {w[0], w[1], w[2], w[3], w[4]};
  }

  /** The five written paths are pairwise different. */
  lemma WrittenPathsDistinct(cwd: string, moduleName: string)
    ensures forall i, j :: 0 <= i < j < 5 ==> WrittenPaths(cwd, moduleName)[i] != WrittenPaths(cwd, moduleName)[j]
  {
    var w := WrittenPaths(cwd, moduleName);
    var l := LocaleDir(cwd, moduleName);
    var b := |BaseDir(cwd, moduleName)|;
    assert |w[0]| == b + 10 && |w[1]| == b + 22 && |w[2]| == b + 16 && |w[3]| == b + 16 && |w[4]| == b + 16;
    assert w[2][|l| + 1] == 'b' && w[3][|l| + 1] == 'e' && w[4][|l| + 1] == 'z';
  }

  /**
   * Each generated file holds the text of its own template, whatever the
   * descriptor: the template engine passes template text through.
   */
  lemma GeneratedIsTemplate(files: map<string, string>, cwd: string, moduleName: string)
    requires forall i :: 0 <= i < 5 ==> TemplatePaths(cwd)[i] in files
    ensures forall i :: 0 <= i < 5 ==>
      Generated(files, cwd, moduleName)[WrittenPaths(cwd, moduleName)[i]] == files[TemplatePaths(cwd)[i]]
  {
    WrittenPathsDistinct(cwd, moduleName);
    CopiedAt(files, WrittenPaths(cwd, moduleName), TemplateTexts(files, cwd));
  }

  /** The folders after the three `mkdir` calls: each is made unless a file is in the way, which stops the rest. */
  function MadeFolders(files: map<string, string>, dirs: set<string>, cwd: string, moduleName: string): (r: set<string>)
    ensures dirs <= r <= dirs + {BaseDir(cwd, moduleName), ComponentsDir(cwd, moduleName), LocaleDir(cwd, moduleName)}
  {
    var base, components, locale := BaseDir(cwd, moduleName), ComponentsDir(cwd, moduleName), LocaleDir(cwd, moduleName);
    if base in files then dirs
    else if components in files then dirs + {base}
    else if locale in files then dirs + {base, components}
    else dirs + {base, components, locale}
  }

  /**
   * The three `Deno.mkdir` calls of one `try` block, whose error is caught
   * and dropped: the first failure skips the folders after it. Existing
   * folders are no failure.
   */
  method MakeFolders(ws: Workspace, cwd: string, moduleName: string)
    requires ws.Valid()
    modifies ws
    ensures ws.Valid() && ws.files == old(ws.files)
    ensures ws.dirs == MadeFolders(old(ws.files), old(ws.dirs), cwd, moduleName)
    ensures old(ws.dirs) <= ws.dirs
    ensures ws.dirs <= old(ws.dirs) + {BaseDir(cwd, moduleName), ComponentsDir(cwd, moduleName), LocaleDir(cwd, moduleName)}
    ensures (BaseDir(cwd, moduleName) !in ws.files && ComponentsDir(cwd, moduleName) !in ws.files &&
        LocaleDir(cwd, moduleName) !in ws.files) ==>
      ws.dirs == old(ws.dirs) + {BaseDir(cwd, moduleName), ComponentsDir(cwd, moduleName), LocaleDir(cwd, moduleName)}
  {
    var made := ws.Mkdir(BaseDir(cwd, moduleName));
    if made {
      made := ws.Mkdir(ComponentsDir(cwd, moduleName));
      if made {
        made := ws.Mkdir(LocaleDir(cwd, moduleName));
      }
    }
  }

  /**
   * The five `TemplateEngine` calls: each reads its template and hands the
   * text back; the first unreadable template fails the generation.
   */
  method ReadTemplates(ws: Workspace, cwd: string) returns (r: Result<seq<string>, CrudError>, ghost missing: nat)
    ensures r.Ok? <==> forall i :: 0 <= i < 5 ==> TemplatePaths(cwd)[i] in ws.files
    ensures r.Ok? ==> r.value == TemplateTexts(ws.files, cwd)
    ensures r.Err? ==>
      missing < 5 && r.error == TemplateMissing(TemplatePaths(cwd)[missing]) && TemplatePaths(cwd)[missing] !in ws.files &&
      forall j :: 0 <= j < missing ==> TemplatePaths(cwd)[j] in ws.files
  {
    var t := TemplatePaths(cwd);
    var texts: seq<string> := [];
    var k := 0;
    while k < 5
      invariant 0 <= k <= 5 && |texts| == k
      invariant forall j :: 0 <= j < k ==> t[j] in ws.files && texts[j] == ws.files[t[j]]
    {
      var text := ws.ReadTextFile(t[k]);
      if text.None? {
        return Err(TemplateMissing(t[k])), k;
      }
      texts := texts + [text.value];
      k := k + 1;
    }
    return Ok(texts), 5;
  }

  /** The five `Deno.writeTextFile` calls, in order; the first failure ends the generation. */
  method WriteFiles(ws: Workspace, cwd: string, moduleName: string, texts: seq<string>) returns (r: Result<(), CrudError>, ghost done: nat)
    requires ws.Valid() && |texts| == 5
    modifies ws
    ensures ws.Valid() && ws.dirs == old(ws.dirs)
    ensures r.Ok? ==> ws.files == Copied(old(ws.files), WrittenPaths(cwd, moduleName), texts)
    ensures r.Ok? ==>
      BaseDir(cwd, moduleName) in ws.dirs && ComponentsDir(cwd, moduleName) in ws.dirs && LocaleDir(cwd, moduleName) in ws.dirs
    ensures r.Err? ==>
      done < 5 && r.error == WriteFailed(WrittenPaths(cwd, moduleName)[done]) &&
      ws.files == CopiedFirst(old(ws.files), WrittenPaths(cwd, moduleName), texts, done) &&
      (TargetDirs(cwd, moduleName)[done] !in ws.dirs || WrittenPaths(cwd, moduleName)[done] in ws.dirs)
    ensures (BaseDir(cwd, moduleName) in ws.dirs && ComponentsDir(cwd, moduleName) in ws.dirs &&
        LocaleDir(cwd, moduleName) in ws.dirs &&
        forall i :: 0 <= i < 5 ==> WrittenPaths(cwd, moduleName)[i] !in ws.dirs) ==>
      r.Ok?
  {
    var baseDir, componentsDir, localeDir := BaseDir(cwd, moduleName), ComponentsDir(cwd, moduleName),
      LocaleDir(cwd, moduleName);
    var w := WrittenPaths(cwd, moduleName);
    ghost var d, files0 := TargetDirs(cwd, moduleName), ws.files;
    assert w[0] == baseDir + "/" + "index.vue" && w[1] == componentsDir + "/" + "Dialog.vue";
    assert w[2] == localeDir + "/" + "bo-CN.ts" && w[3] == localeDir + "/" + "en-US.ts" && w[4] == localeDir + "/" + "zh-CN.ts";
    assert ws.files == CopiedFirst(files0, w, texts, 0);
    var ok := ws.WriteTextFile(baseDir, "index.vue", texts[0]);
    if !ok { return Err(WriteFailed(w[0])), 0; }
    CopiedFirstStep(files0, w, texts, 0);
    ok := ws.WriteTextFile(componentsDir, "Dialog.vue", texts[1]);
    if !ok { return Err(WriteFailed(w[1])), 1; }
    CopiedFirstStep(files0, w, texts, 1);
    ok := ws.WriteTextFile(localeDir, "bo-CN.ts", texts[2]);
    if !ok { return Err(WriteFailed(w[2])), 2; }
    CopiedFirstStep(files0, w, texts, 2);
    ok := ws.WriteTextFile(localeDir, "en-US.ts", texts[3]);
    if !ok { return Err(WriteFailed(w[3])), 3; }
    CopiedFirstStep(files0, w, texts, 3);
    ok := ws.WriteTextFile(localeDir, "zh-CN.ts", texts[4]);
    if !ok { return Err(WriteFailed(w[4])), 4; }
    CopiedFirstAll(files0, w, texts);
    return Ok(()), 5;
  }

  /** The folders made for a module are never among the paths written for it. */
  lemma FoldersAreNotWritten(cwd: string, moduleName: string)
    ensures forall i :: 0 <= i < 5 ==>
      WrittenPaths(cwd, moduleName)[i] != BaseDir(cwd, moduleName) &&
      WrittenPaths(cwd, moduleName)[i] != ComponentsDir(cwd, moduleName) &&
      WrittenPaths(cwd, moduleName)[i] != LocaleDir(cwd, moduleName)
  {
    var b := |BaseDir(cwd, moduleName)|;
    var w := WrittenPaths(cwd, moduleName);
    assert |w[0]| == b + 10 && |w[1]| == b + 22 && |w[2]| == b + 16 && |w[3]| == b + 16 && |w[4]| == b + 16;
    assert |ComponentsDir(cwd, moduleName)| == b + 11 && |LocaleDir(cwd, moduleName)| == b + 7;
  }

  /**
   * `CrudService.createCrud(data)` run in the working directory `cwd`. A
   * missing table name fails before the column query; a table without
   * columns fails before any directory or file is made; folder errors are
   * ignored; on success the five templates are copied and the manifest lists them.
   * The ghost `done` is the index of the first missing template when a read
   * fails, and the number of files written before the failing write when a
   * write fails.
   */
  method CreateCrud(data: CrudData, cwd: string, ws: Workspace, catalog: Catalog)
    returns (r: Result<Manifest, CrudError>, ghost done: nat)
    requires ws.Valid()
    modifies ws, catalog
    ensures ws.Valid()
    ensures data.table == "" ==>
      r == Err(TableRequired) && catalog.asked == old(catalog.asked) &&
      ws.files == old(ws.files) && ws.dirs == old(ws.dirs)
    ensures data.table != "" ==> catalog.asked == old(catalog.asked) + [data.table]
    ensures data.table != "" && |catalog.ColumnsOf(data.table)| == 0 ==>
      r == Err(NoColumns(data.table)) && ws.files == old(ws.files) && ws.dirs == old(ws.dirs)
    ensures r.Ok? ==>
      (forall i :: 0 <= i < 5 ==> TemplatePaths(cwd)[i] in old(ws.files)) &&
      ws.files == Generated(old(ws.files), cwd, data.moduleName) &&
      r.value == Manifest(data.table, data.moduleName, data.controller, MainFolder(data.moduleName),
        ManifestFiles(data.moduleName), |catalog.ColumnsOf(data.table)|)
    ensures r.Ok? ==>
      ws.dirs == old(ws.dirs) + {BaseDir(cwd, data.moduleName), ComponentsDir(cwd, data.moduleName), LocaleDir(cwd, data.moduleName)}
    ensures r.Err? && (r.error.TemplateMissing? || r.error.WriteFailed?) ==>
      ws.dirs == MadeFolders(old(ws.files), old(ws.dirs), cwd, data.moduleName)
    ensures r.Err? && r.error.TableRequired? ==> data.table == ""
    ensures r.Err? && r.error.NoColumns? ==> data.table != "" && |catalog.ColumnsOf(data.table)| == 0
    ensures r.Err? && r.error.TemplateMissing? ==> ws.files == old(ws.files)
    ensures r.Err? && r.error.TemplateMissing? ==>
      done < 5 && r.error == TemplateMissing(TemplatePaths(cwd)[done]) && TemplatePaths(cwd)[done] !in old(ws.files) &&
      forall j :: 0 <= j < done ==> TemplatePaths(cwd)[j] in old(ws.files)
    ensures r.Err? && r.error.WriteFailed? ==>
      (forall i :: 0 <= i < 5 ==> TemplatePaths(cwd)[i] in old(ws.files)) &&
      done < 5 && r.error == WriteFailed(WrittenPaths(cwd, data.moduleName)[done]) &&
      ws.files == CopiedFirst(old(ws.files), WrittenPaths(cwd, data.moduleName), TemplateTexts(old(ws.files), cwd), done)
    ensures (data.table != "" && |catalog.ColumnsOf(data.table)| > 0 &&
        (forall i :: 0 <= i < 5 ==> TemplatePaths(cwd)[i] in old(ws.files)) &&
        BaseDir(cwd, data.moduleName) !in old(ws.files) && ComponentsDir(cwd, data.moduleName) !in old(ws.files) &&
        LocaleDir(cwd, data.moduleName) !in old(ws.files) &&
        (forall i :: 0 <= i < 5 ==> WrittenPaths(cwd, data.moduleName)[i] !in old(ws.dirs))) ==>
      r.Ok?
  {
    done := 0;
    if data.table == "" {
      return Err(TableRequired), done;
    }
    var fields := catalog.Query(data.table);
    if |fields| == 0 {
      return Err(NoColumns(data.table)), done;
    }
    MakeFolders(ws, cwd, data.moduleName);
    ghost var before := ws.files;
    var texts;
    texts, done := ReadTemplates(ws, cwd);
    if texts.Err? {
      return Err(texts.error), done;
    }
    FoldersAreNotWritten(cwd, data.moduleName);
    var written;
    written, done := WriteFiles(ws, cwd, data.moduleName, texts.value);
    if written.Err? {
      return Err(written.error), done;
    }
    r := Ok(Manifest(data.table, data.moduleName, data.controller, MainFolder(data.moduleName), ManifestFiles(data.moduleName),
      |fields|));
  }
}
