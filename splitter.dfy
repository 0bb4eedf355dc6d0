/**
 * The chunk, embed and store driver (`RepoCodeSplitter`, src/core/repo_code_splitter.py).
 *
 * The structure file written by the analyzer is read back, every listed file is read from the
 * working copy, split into chunks, each chunk is embedded and every non-empty embedding is
 * stored with the chunk's position. The file system, the text splitter, the embedding
 * provider and the vector store are oracles; what the store is asked to do is recorded in a
 * ghost trace of requests.
 */
module Splitter {
  import opened Wrappers
  import opened Strings
  import opened Paths
  import opened Seqs
  import Analyzer
  import Factory

  type Structure = Analyzer.Structure

  /** How reading the structure file ended: parsed, missing, not JSON, or another I/O error. */
  datatype LoadOutcome = Parsed(structure: Structure) | FileNotFound | InvalidJson | OtherIOError

  /**
   * `_load_repo_structure`: the parsed structure; an empty one when the file is missing or is
   * not valid JSON; nothing (Python's implicit `None`) after any other I/O error.
   */
  function LoadRepoStructure(outcome: LoadOutcome): (loaded: Option<Structure>)
    ensures outcome.Parsed? ==> loaded == Some(outcome.structure)
    ensures (outcome.FileNotFound? || outcome.InvalidJson?) ==> loaded == Some([])
    ensures outcome.OtherIOError? <==> loaded.None?
  {
    match outcome
    case Parsed(s) => Some(s)
    case FileNotFound => Some([])
    case InvalidJson => Some([])
    case OtherIOError => None
  }

  /** `not repo_structure` is false: a structure was loaded and it has at least one entry. */
  predicate HasEntries(loaded: Option<Structure>)
  {
    loaded.Some? && loaded.value != []
  }

  /**
   * `_get_file_path`: the relative path without its leading `/`s, joined under the clone
   * root, then joined with the file name.
   */
  function GetFilePath(clonedRepoPath: string, relativePath: string, filename: string): string
  {
    PathJoin(PathJoin(clonedRepoPath, LStrip(relativePath, '/')), filename)
  }

  /**
   * `_build_final_filename`: the bare file name for the root key `/`, otherwise the relative
   * path without its leading `/`s joined with the file name; every `\` becomes `/`.
   */
  function BuildFinalFilename(relativePath: string, filename: string): (finalName: string)
    ensures '\\' !in finalName
  {
    var joined := if relativePath == "/" then filename else PathJoin(LStrip(relativePath, '/'), filename);
    Replace(joined, '\\', '/')
  }

  /** A join of plain names neither starts nor ends with `/`. */
  lemma {:induction false} JoinEnds(comps: seq<string>)
    requires |comps| >= 1
    requires forall i :: 0 <= i < |comps| ==> Analyzer.PlainName(comps[i])
    ensures var j := Join(comps, '/'); j != [] && j[0] != '/' && j[|j| - 1] != '/'
  {
    if |comps| == 1 {
      assert Analyzer.PlainName(comps[0]);
    } else {
      var head := comps[..|comps| - 1];
      var last := comps[|comps| - 1];
      assert Analyzer.PlainName(last);
      JoinEnds(head);
      var h := Join(head, '/');
      assert Join(comps, '/') == h + ['/'] + last;
      assert (h + ['/'] + last)[0] == h[0];
    }
  }

  lemma ConcatAssociates(a: string, b: string, c: string, d: string, e: string)
    ensures a + b + c + d + e == a + b + (c + d + e)
  {
  }

  /** `lstrip('/')` removes exactly the one `/` in front of a string that does not start with `/`. */
  lemma LStripOneSlash(s: string)
    requires s != [] && s[0] != '/'
    ensures LStrip("/" + s, '/') == s
  {
    assert ("/" + s)[1..] == s;
  }

  /** The key of a directory below the root is `/` followed by its names joined by `/`. */
  lemma KeyOfPlainNames(comps: seq<string>)
    requires comps != []
    requires forall i :: 0 <= i < |comps| ==> Analyzer.PlainName(comps[i])
    ensures var j := Join(comps, '/');
            j != [] && j[0] != '/' && j[|j| - 1] != '/' && '\\' !in j && Analyzer.Key(comps) == "/" + j
  {
    var j := Join(comps, '/');
    Analyzer.JoinShape(comps);
    JoinEnds(comps);
    if |comps| == 1 {
      assert Analyzer.PlainName(comps[0]);
    }
    assert j != ".";
    assert Analyzer.RelPath(comps) == j;
    Analyzer.ReplaceAbsent(j, '\\', '/');
  }

  /** Under a directory key `/j`, the final name is `j/filename`. */
  lemma FinalFilenameBelowRoot(j: string, filename: string)
    requires j != [] && j[0] != '/' && j[|j| - 1] != '/' && '\\' !in j
    requires Analyzer.PlainName(filename)
    ensures BuildFinalFilename("/" + j, filename) == j + "/" + filename
  {
    LStripOneSlash(j);
    assert "/" + j != "/" by {
      assert |"/" + j| >= 2;
    }
    assert !StartsWith(filename, "/") by {
      assert filename[0] in filename;
    }
    assert !EndsWith(j, "/") by {
      assert j[|j| - 1..] == [j[|j| - 1]];
    }
    assert PathJoin(j, filename) == j + "/" + filename;
    Analyzer.ReplaceAbsent(j + "/" + filename, '\\', '/');
  }

  /**
   * For a directory key built by the analyzer from plain names, the final file name is the
   * path of the file from the root of the working copy, its names joined by `/`.
   */
  lemma FinalFilenameOfKey(comps: seq<string>, filename: string)
    requires forall i :: 0 <= i < |comps| ==> Analyzer.PlainName(comps[i])
    requires Analyzer.PlainName(filename)
    ensures BuildFinalFilename(Analyzer.Key(comps), filename) == Join(comps + [filename], '/')
  {
    var all := comps + [filename];
    if comps == [] {
      assert all == [filename];
      assert Analyzer.Key(comps) == "/";
      Analyzer.ReplaceAbsent(filename, '\\', '/');
    } else {
      KeyOfPlainNames(comps);
      var j := Join(comps, '/');
      FinalFilenameBelowRoot(j, filename);
      assert all[..|all| - 1] == comps;
      assert Join(all, '/') == j + ['/'] + filename;
    }
  }

  /** Under the root key `/`, the file path is the clone root, `/`, and the file name. */
  lemma FilePathAtRoot(clonedRepoPath: string, filename: string)
    requires clonedRepoPath != "" && !EndsWith(clonedRepoPath, "/")
    requires Analyzer.PlainName(filename)
    ensures GetFilePath(clonedRepoPath, "/", filename) == clonedRepoPath + "/" + BuildFinalFilename("/", filename)
  {
    assert !StartsWith(filename, "/") by {
      assert filename[0] in filename;
    }
    assert LStrip("/", '/') == "";
    var dir := PathJoin(clonedRepoPath, "");
    assert dir == clonedRepoPath + "/";
    assert EndsWith(dir, "/");
    Analyzer.ReplaceAbsent(filename, '\\', '/');
  }

  /** Under a key `/j`, the file path is the clone root, `/`, and `j/filename`. */
  lemma FilePathBelowRoot(clonedRepoPath: string, j: string, filename: string)
    requires clonedRepoPath != "" && !EndsWith(clonedRepoPath, "/")
    requires j != [] && j[0] != '/' && j[|j| - 1] != '/' && '\\' !in j
    requires Analyzer.PlainName(filename)
    ensures GetFilePath(clonedRepoPath, "/" + j, filename) == clonedRepoPath + "/" + BuildFinalFilename("/" + j, filename)
  {
    assert !StartsWith(filename, "/") by {
      assert filename[0] in filename;
    }
    LStripOneSlash(j);
    FinalFilenameBelowRoot(j, filename);
    assert !StartsWith(j, "/");
    var dir := PathJoin(clonedRepoPath, j);
    assert dir == clonedRepoPath + "/" + j;
    assert !EndsWith(dir, "/") by {
      assert dir[|dir| - 1] == j[|j| - 1];
      assert dir[|dir| - 1..] == [dir[|dir| - 1]];
    }
    assert GetFilePath(clonedRepoPath, "/" + j, filename) == dir + "/" + filename;
    ConcatAssociates(clonedRepoPath, "/", j, "/", filename);
  }

  /**
   * For such a key, the file path is the clone root, `/`, and the final file name: the file
   * read is the one the analyzer listed.
   */
  lemma FilePathOfKey(clonedRepoPath: string, comps: seq<string>, filename: string)
    requires clonedRepoPath != "" && clonedRepoPath[|clonedRepoPath| - 1] != '/'
    requires forall i :: 0 <= i < |comps| ==> Analyzer.PlainName(comps[i])
    requires Analyzer.PlainName(filename)
    ensures GetFilePath(clonedRepoPath, Analyzer.Key(comps), filename)
         == clonedRepoPath + "/" + BuildFinalFilename(Analyzer.Key(comps), filename)
  {
    assert !EndsWith(clonedRepoPath, "/") by {
      assert clonedRepoPath[|clonedRepoPath| - 1..] == [clonedRepoPath[|clonedRepoPath| - 1]];
    }
    if comps == [] {
      assert Analyzer.Key(comps) == "/";
      FilePathAtRoot(clonedRepoPath, filename);
    } else {
      KeyOfPlainNames(comps);
      FilePathBelowRoot(clonedRepoPath, Join(comps, '/'), filename);
    }
  }

  /**
   * What reading a path of the working copy gives: no such file, an `IOError` (caught and
   * skipped), bytes that are not UTF-8 (a `UnicodeDecodeError`, which is not an `IOError` and
   * so ends `process_files`), or its text.
   */
  datatype FileState = Missing | Unreadable | Undecodable | Readable(content: string)

  /**
   * What the provider's `generate_embedding` did: returned a vector (perhaps empty), returned
   * `None`, raised `IOError` (caught), or raised any other exception (which ends `process_files`).
   */
  datatype EmbedOutcome = Returned(vector: seq<real>) | ReturnedNone | RaisedIOError | RaisedOther

  /** The arguments of one `insert_embedding` call. */
  datatype InsertCall = InsertCall(filename: string, content: string, embedding: seq<real>, chunkOrder: nat, tableName: string)

  /** A request the driver makes of the provider or the store. */
  datatype Event =
    | SetupRequested(table: string)
    | EmbedRequested(text: string)
    | InsertRequested(call: InsertCall)

  predicate IsInsert(e: Event)
  {
    e.InsertRequested?
  }

  /** The number of store inserts in a trace. */
  function InsertCount(trace: seq<Event>): nat
  {
    |Filter(IsInsert, trace)|
  }

  /** No embedding request carries blank text. */
  predicate NoBlankEmbedRequests(trace: seq<Event>)
  {
    forall e :: e in trace && e.EmbedRequested? ==> !IsBlank(e.text)
  }

  /** Every insert goes to `table` with a non-empty vector. */
  predicate InsertsWellFormed(trace: seq<Event>, table: string)
  {
    forall e :: e in trace && e.InsertRequested? ==> e.call.tableName == table && e.call.embedding != []
  }

  /** Every insert comes right after the embedding request for its content. */
  predicate InsertsFollowRequests(trace: seq<Event>)
  {
    forall i :: 0 <= i < |trace| && trace[i].InsertRequested? ==>
      i > 0 && trace[i - 1] == EmbedRequested(trace[i].call.content)
  }

  lemma AppendStep(start: seq<Event>, done: seq<Event>, step: seq<Event>, before: seq<Event>, after: seq<Event>)
    requires before == start + done && after == before + step
    ensures after == start + (done + step)
  {
  }

  /** The three trace properties hold of a concatenation when they hold of both parts. */
  lemma ConcatWellBehaved(a: seq<Event>, b: seq<Event>, table: string)
    requires NoBlankEmbedRequests(a) && InsertsWellFormed(a, table) && InsertsFollowRequests(a)
    requires NoBlankEmbedRequests(b) && InsertsWellFormed(b, table) && InsertsFollowRequests(b)
    ensures NoBlankEmbedRequests(a + b) && InsertsWellFormed(a + b, table) && InsertsFollowRequests(a + b)
  {
    var t := a + b;
    forall i | 0 <= i < |t| && t[i].InsertRequested?
      ensures i > 0 && t[i - 1] == EmbedRequested(t[i].call.content)
    {
      if i >= |a| {
        assert t[i] == b[i - |a|];
        if i - |a| > 0 {
          assert t[i - 1] == b[i - |a| - 1];
        }
      }
    }
  }

  /** The three trace properties hold of the concatenation of parts that each satisfy them. */
  lemma {:induction false} FlattenWellBehaved(parts: seq<seq<Event>>, table: string)
    requires forall k :: 0 <= k < |parts| ==>
      NoBlankEmbedRequests(parts[k]) && InsertsWellFormed(parts[k], table) && InsertsFollowRequests(parts[k])
    ensures var t := Flatten(parts); NoBlankEmbedRequests(t) && InsertsWellFormed(t, table) && InsertsFollowRequests(t)
  {
    if parts != [] {
      var init := parts[..|parts| - 1];
      FlattenWellBehaved(init, table);
      ConcatWellBehaved(Flatten(init), parts[|parts| - 1], table);
    }
  }

  /** Parts with at most one insert each give at most one insert per part. */
  lemma {:induction false} FlattenInsertCount(parts: seq<seq<Event>>)
    requires forall k :: 0 <= k < |parts| ==> InsertCount(parts[k]) <= 1
    ensures InsertCount(Flatten(parts)) <= |parts|
  {
    if parts != [] {
      var init := parts[..|parts| - 1];
      FlattenInsertCount(init);
      FilterAppend(IsInsert, Flatten(init), parts[|parts| - 1]);
    }
  }

  /**
   * The driver. Its fields are the oracles it calls: the selected provider, the file system
   * of the working copy, the text splitter, the provider's `generate_embedding`, and the
   * store's `setup_database` and `insert_embedding` outcomes. `trace` records the requests.
   */
  class RepoCodeSplitter {
    const service: Option<Factory.Provider>
    const fileSystem: string -> FileState
    const split: string -> seq<string>
    const generate: string -> EmbedOutcome
    const setupSucceeds: string -> bool
    const insertSucceeds: InsertCall -> bool
    ghost var trace: seq<Event>

    constructor (service: Option<Factory.Provider>, fileSystem: string -> FileState, split: string -> seq<string>,
                 generate: string -> EmbedOutcome, setupSucceeds: string -> bool, insertSucceeds: InsertCall -> bool)
      ensures this.service == service && this.fileSystem == fileSystem && this.split == split
      ensures this.generate == generate && this.setupSucceeds == setupSucceeds && this.insertSucceeds == insertSucceeds
      ensures trace == []
    {
      this.service := service;
      this.fileSystem := fileSystem;
      this.split := split;
      this.generate := generate;
      this.setupSucceeds := setupSucceeds;
      this.insertSucceeds := insertSucceeds;
      trace := [];
    }

    /**
     * What `_generate_embeddings(content)` returns: nothing without a service or for blank
     * content (the provider is not called), nothing when the provider raises `IOError` or
     * returns a falsy result (`None` or an empty list), the vector otherwise.
     */
    function EmbeddingOf(content: string): Option<seq<real>>
    {
      if service.None? || IsBlank(content) then None
      else match generate(content)
        case Returned(v) => if v != [] then Some(v) else None
        case ReturnedNone => None
        case RaisedIOError => None
        case RaisedOther => None
    }

    /** `_generate_embeddings(content)` lets an exception other than `IOError` escape: the provider was asked and raised one. */
    predicate EmbeddingRaises(content: string)
    {
      service.Some? && !IsBlank(content) && generate(content).RaisedOther?
    }

    /** The provider request `_generate_embeddings(content)` makes: one exactly when there is a service and the content is not blank. */
    function EmbedRequests(content: string): seq<Event>
    {
      if service.Some? && !IsBlank(content) then [EmbedRequested(content)] else []
    }

    /**
     * A vector comes back exactly when the provider was asked (a service is present and the
     * content is not blank) and returned a non-empty vector; that vector is the result.
     */
    lemma EmbeddingOfMeaning(content: string)
      ensures EmbeddingOf(content).Some? <==> EmbedRequests(content) == [EmbedRequested(content)]
                                              && generate(content).Returned? && generate(content).vector != []
      ensures EmbeddingOf(content).Some? ==> EmbeddingOf(content).value == generate(content).vector
      ensures EmbedRequests(content) == [] <==> service.None? || IsBlank(content)
    {
    }

    /** One iteration of the chunk loop: embed the chunk, and store it at position `idx` if the vector is non-empty. */
    function ChunkStep(finalName: string, chunk: string, idx: nat, table: string): seq<Event>
    {
      var embedding := EmbeddingOf(chunk);
      EmbedRequests(chunk)
      + if embedding.Some? && embedding.value != [] then [InsertRequested(InsertCall(finalName, chunk, embedding.value, idx, table))] else []
    }

    /** The requests of each iteration of `for idx, chunk in enumerate(chunks)`. */
    function ChunkSteps(finalName: string, chunks: seq<string>, table: string): seq<seq<Event>>
    {
      seq(|chunks|, k requires 0 <= k < |chunks| => ChunkStep(finalName, chunks[k], k, table))
    }

    /** Which iterations of the chunk loop raise. */
    function ChunkStops(chunks: seq<string>): seq<bool>
    {
      seq(|chunks|, k requires 0 <= k < |chunks| => EmbeddingRaises(chunks[k]))
    }

    /** The chunk loop ends with an exception. */
    predicate ChunksRaise(chunks: seq<string>)
    {
      FirstStop(ChunkStops(chunks)) < |chunks|
    }

    /** The requests of the chunk loop, up to and including the chunk whose embedding raises, if any. */
    function ChunkEvents(finalName: string, chunks: seq<string>, table: string): seq<Event>
    {
      Flatten(ChunkSteps(finalName, chunks, table)[..Taken(ChunkStops(chunks))])
    }

    /** Processing one listed file ends with an exception: it cannot be decoded, or one of its chunks raises. */
    predicate FileRaises(clonedRepoPath: string, relativePath: string, filename: string)
    {
      match fileSystem(GetFilePath(clonedRepoPath, relativePath, filename))
      case Undecodable => true
      case Readable(content) => split(content) != [] && ChunksRaise(split(content))
      case _ => false
    }

    /** The requests made for one listed file: none if it is missing, unreadable, undecodable or yields no chunks. */
    function FileEvents(clonedRepoPath: string, relativePath: string, filename: string, table: string): seq<Event>
    {
      match fileSystem(GetFilePath(clonedRepoPath, relativePath, filename))
      case Missing => []
      case Unreadable => []
      case Undecodable => []
      case Readable(content) =>
        var chunks := split(content);
        if chunks == [] then [] else ChunkEvents(BuildFinalFilename(relativePath, filename), chunks, table)
    }

    /** The requests of each iteration of the file loop of one directory entry. */
    function FileSteps(clonedRepoPath: string, relativePath: string, files: seq<string>, table: string): seq<seq<Event>>
    {
      seq(|files|, k requires 0 <= k < |files| => FileEvents(clonedRepoPath, relativePath, files[k], table))
    }

    /** Which iterations of the file loop of one directory entry raise. */
    function FileStops(clonedRepoPath: string, relativePath: string, files: seq<string>): seq<bool>
    {
      seq(|files|, k requires 0 <= k < |files| => FileRaises(clonedRepoPath, relativePath, files[k]))
    }

    /** Processing one directory entry ends with an exception. */
    predicate EntryRaises(clonedRepoPath: string, relativePath: string, files: seq<string>)
    {
      FirstStop(FileStops(clonedRepoPath, relativePath, files)) < |files|
    }

    /** The requests made for one directory entry, up to and including the file that raises, if any. */
    function EntryEvents(clonedRepoPath: string, relativePath: string, files: seq<string>, table: string): seq<Event>
    {
      Flatten(FileSteps(clonedRepoPath, relativePath, files, table)[..Taken(FileStops(clonedRepoPath, relativePath, files))])
    }

    /** The requests of each iteration of the loop over the structure's entries. */
    function EntrySteps(clonedRepoPath: string, structure: Structure, table: string): seq<seq<Event>>
    {
      seq(|structure|, k requires 0 <= k < |structure| => EntryEvents(clonedRepoPath, structure[k].0, structure[k].1, table))
    }

    /** Which iterations of the loop over the structure's entries raise. */
    function EntryStops(clonedRepoPath: string, structure: Structure): seq<bool>
    {
      seq(|structure|, k requires 0 <= k < |structure| => EntryRaises(clonedRepoPath, structure[k].0, structure[k].1))
    }

    /**
     * All requests `process_files` makes: none when no structure or an empty one was loaded;
     * otherwise the table setup, and, only if the setup succeeded, the per-entry requests up
     * to and including the entry where an exception escapes, if any.
     */
    function Run(repoName: string, clonedRepoPath: string, loaded: Option<Structure>): seq<Event>
    {
      if !HasEntries(loaded) then []
      else if !setupSucceeds(repoName) then [SetupRequested(repoName)]
      else
        var structure := loaded.value;
        [SetupRequested(repoName)]
        + Flatten(EntrySteps(clonedRepoPath, structure, repoName)[..Taken(EntryStops(clonedRepoPath, structure))])
    }

    /** `process_files` ends with an exception rather than returning. */
    predicate RunRaises(repoName: string, clonedRepoPath: string, loaded: Option<Structure>)
    {
      HasEntries(loaded) && setupSucceeds(repoName)
      && FirstStop(EntryStops(clonedRepoPath, loaded.value)) < |loaded.value|
    }

    /** The rows the store holds after the inserts of `trace`: the calls whose insert succeeded. */
    function StoredRows(trace: seq<Event>): seq<InsertCall>
    {
      if trace == [] then []
      else
        var e := trace[|trace| - 1];
        StoredRows(trace[..|trace| - 1]) + if e.InsertRequested? && insertSucceeds(e.call) then [e.call] else []
    }

    // -------------------------------------------------------------------------------------
    // The oracle calls

    /** `vecto_db.setup_database(table_name=repo_name)`. */
    method SetupDatabase(table: string) returns (ready: bool)
      modifies this
      ensures ready == setupSucceeds(table)
      ensures trace == old(trace) + [SetupRequested(table)]
    {
      trace := trace + [SetupRequested(table)];
      ready := setupSucceeds(table);
    }

    /** `_generate_embeddings(content)`; `raised` says that an exception other than `IOError` escaped it. */
    method GenerateEmbeddings(content: string) returns (embedding: Option<seq<real>>, raised: bool)
      modifies this
      ensures embedding == EmbeddingOf(content)
      ensures raised == EmbeddingRaises(content)
      ensures trace == old(trace) + EmbedRequests(content)
    {
      if service.None? {
        return None, false;
      }
      if IsBlank(content) {
        return None, false;
      }
      trace := trace + [EmbedRequested(content)];
      var outcome := generate(content);
      match outcome {
        case Returned(v) =>
          if v != [] {
            return Some(v), false;
          }
          return None, false;
        case ReturnedNone =>
          return None, false;
        case RaisedIOError =>
          return None, false;
        case RaisedOther =>
          return None, true;
      }
    }

    /** `vecto_db.insert_embedding(...)`; its result is only logged by the caller. */
    method InsertEmbedding(call: InsertCall) returns (success: bool)
      modifies this
      ensures success == insertSucceeds(call)
      ensures trace == old(trace) + [InsertRequested(call)]
    {
      trace := trace + [InsertRequested(call)];
      success := insertSucceeds(call);
    }

    // -------------------------------------------------------------------------------------
    // process_files

    /** The `idx`-th iteration of the chunk loop processes the `idx`-th chunk. */
    lemma ChunkStepAt(finalName: string, chunks: seq<string>, table: string, idx: nat)
      requires idx < |chunks|
      ensures ChunkSteps(finalName, chunks, table)[idx] == ChunkStep(finalName, chunks[idx], idx, table)
      ensures ChunkStops(chunks)[idx] == EmbeddingRaises(chunks[idx])
    {
    }

    /** The body of the chunk loop: embed the chunk and store a non-empty vector with the chunk's index. */
    method StoreChunk(finalName: string, chunk: string, idx: nat, table: string) returns (raised: bool)
      modifies this
      ensures raised == EmbeddingRaises(chunk)
      ensures trace == old(trace) + ChunkStep(finalName, chunk, idx, table)
    {
      var embeddingVector;
      embeddingVector, raised := GenerateEmbeddings(chunk);
      if embeddingVector.Some? && embeddingVector.value != [] {
        var success := InsertEmbedding(InsertCall(finalName, chunk, embeddingVector.value, idx, table));
      }
    }

    /**
     * The innermost loop of `process_files`: every chunk is embedded and every non-empty vector
     * stored with its index, until an embedding raises something other than `IOError`.
     */
    method StoreChunks(finalName: string, chunks: seq<string>, table: string) returns (raised: bool)
      modifies this
      ensures raised == ChunksRaise(chunks)
      ensures trace == old(trace) + ChunkEvents(finalName, chunks, table)
    {
      ghost var steps := ChunkSteps(finalName, chunks, table);
      ghost var stops := ChunkStops(chunks);
      var idx := 0;
      raised := false;
      while idx < |chunks| && !raised
        invariant 0 <= idx <= |chunks|
        invariant RanUntilStop(stops, idx, raised)
        invariant trace == old(trace) + Flatten(steps[..idx])
      {
        ghost var before := trace;
        var failed := StoreChunk(finalName, chunks[idx], idx, table);
        ChunkStepAt(finalName, chunks, table, idx);
        RanOneMore(stops, idx, failed);
        raised := failed;
        assert trace == before + steps[idx];
        FlattenStep(steps, idx);
        AppendStep(old(trace), Flatten(steps[..idx]), steps[idx], before, trace);
        idx := idx + 1;
      }
      RanTaken(stops, idx, raised);
    }

    /**
     * The body of the file loop: a missing or unreadable file, or one without chunks, is
     * skipped; an undecodable file, or a chunk whose embedding raises, ends the run.
     */
    method ProcessFile(clonedRepoPath: string, relativePath: string, filename: string, table: string) returns (raised: bool)
      modifies this
      ensures raised == FileRaises(clonedRepoPath, relativePath, filename)
      ensures trace == old(trace) + FileEvents(clonedRepoPath, relativePath, filename, table)
    {
      var fullFilePath := GetFilePath(clonedRepoPath, relativePath, filename);
      var state := fileSystem(fullFilePath);
      if state.Missing? || state.Unreadable? {
        return false;
      }
      if state.Undecodable? {
        return true;
      }
      var content := state.content;
      var finalFilename := BuildFinalFilename(relativePath, filename);
      var chunks := split(content);
      if chunks == [] {
        return false;
      }
      raised := StoreChunks(finalFilename, chunks, table);
    }

    /** The `j`-th iteration of the file loop processes the `j`-th file. */
    lemma FileStepAt(clonedRepoPath: string, relativePath: string, files: seq<string>, table: string, j: nat)
      requires j < |files|
      ensures FileSteps(clonedRepoPath, relativePath, files, table)[j] == FileEvents(clonedRepoPath, relativePath, files[j], table)
      ensures FileStops(clonedRepoPath, relativePath, files)[j] == FileRaises(clonedRepoPath, relativePath, files[j])
    {
    }

    /** The file loop of `process_files` for one entry of the structure. */
    method ProcessEntry(clonedRepoPath: string, relativePath: string, files: seq<string>, table: string) returns (raised: bool)
      modifies this
      ensures raised == EntryRaises(clonedRepoPath, relativePath, files)
      ensures trace == old(trace) + EntryEvents(clonedRepoPath, relativePath, files, table)
    {
      ghost var steps := FileSteps(clonedRepoPath, relativePath, files, table);
      ghost var stops := FileStops(clonedRepoPath, relativePath, files);
      var j := 0;
      raised := false;
      while j < |files| && !raised
        invariant 0 <= j <= |files|
        invariant RanUntilStop(stops, j, raised)
        invariant trace == old(trace) + Flatten(steps[..j])
      {
        ghost var before := trace;
        var failed := ProcessFile(clonedRepoPath, relativePath, files[j], table);
        FileStepAt(clonedRepoPath, relativePath, files, table, j);
        RanOneMore(stops, j, failed);
        raised := failed;
        assert trace == before + steps[j];
        FlattenStep(steps, j);
        AppendStep(old(trace), Flatten(steps[..j]), steps[j], before, trace);
        j := j + 1;
      }
      RanTaken(stops, j, raised);
    }

    /** The `i`-th iteration of the entry loop processes the `i`-th entry. */
    lemma EntryStepAt(clonedRepoPath: string, structure: Structure, table: string, i: nat)
      requires i < |structure|
      ensures EntrySteps(clonedRepoPath, structure, table)[i] == EntryEvents(clonedRepoPath, structure[i].0, structure[i].1, table)
      ensures EntryStops(clonedRepoPath, structure)[i] == EntryRaises(clonedRepoPath, structure[i].0, structure[i].1)
    {
    }

    /**
     * `process_files`: loads the structure, stops when none or an empty one is loaded, sets
     * up the table named after the repository (stopping if that fails), and processes every
     * file of every entry in order until an exception escapes; `raised` says that one did.
     * The provider must be present once there is something to process: the source reads its
     * model information before any check.
     */
    method ProcessFiles(repoName: string, clonedRepoPath: string, load: LoadOutcome) returns (raised: bool)
      requires HasEntries(LoadRepoStructure(load)) ==> service.Some?
      modifies this
      ensures raised == RunRaises(repoName, clonedRepoPath, LoadRepoStructure(load))
      ensures trace == old(trace) + Run(repoName, clonedRepoPath, LoadRepoStructure(load))
      ensures StoredRows(trace) == StoredRows(old(trace)) + StoredRows(Run(repoName, clonedRepoPath, LoadRepoStructure(load)))
    {
      var repoStructure := LoadRepoStructure(load);
      StoredRowsAppend(old(trace), Run(repoName, clonedRepoPath, repoStructure));
      if repoStructure.None? || repoStructure.value == [] {
        return false;
      }
      var structure := repoStructure.value;
      var ready := SetupDatabase(repoName);
      if !ready {
        return false;
      }
      ghost var start := old(trace) + [SetupRequested(repoName)];
      ghost var steps := EntrySteps(clonedRepoPath, structure, repoName);
      ghost var stops := EntryStops(clonedRepoPath, structure);
      var i := 0;
      raised := false;
      while i < |structure| && !raised
        invariant 0 <= i <= |structure|
        invariant RanUntilStop(stops, i, raised)
        invariant trace == start + Flatten(steps[..i])
      {
        var relativePath := structure[i].0;
        var files := structure[i].1;
        ghost var before := trace;
        var failed := ProcessEntry(clonedRepoPath, relativePath, files, repoName);
        EntryStepAt(clonedRepoPath, structure, repoName, i);
        RanOneMore(stops, i, failed);
        raised := failed;
        assert trace == before + steps[i];
        FlattenStep(steps, i);
        AppendStep(start, Flatten(steps[..i]), steps[i], before, trace);
        i := i + 1;
      }
      RanTaken(stops, i, raised);
      AppendStep(old(trace), [SetupRequested(repoName)], Flatten(steps[..i]), start, trace);
    }

    // -------------------------------------------------------------------------------------
    // What the requests satisfy

    /** One chunk's requests: a non-blank embedding request, then at most one well-formed insert of that chunk. */
    lemma ChunkStepWellBehaved(finalName: string, chunk: string, idx: nat, table: string)
      ensures var t := ChunkStep(finalName, chunk, idx, table);
              NoBlankEmbedRequests(t) && InsertsWellFormed(t, table) && InsertsFollowRequests(t) && InsertCount(t) <= 1
    {
      var t := ChunkStep(finalName, chunk, idx, table);
      var embedding := EmbeddingOf(chunk);
      EmbeddingOfMeaning(chunk);
      if embedding.Some? {
        var insert := InsertRequested(InsertCall(finalName, chunk, embedding.value, idx, table));
        assert t == [EmbedRequested(chunk)] + [insert];
        FilterAppend(IsInsert, [EmbedRequested(chunk)], [insert]);
        assert Filter(IsInsert, [EmbedRequested(chunk)]) == Filter(IsInsert, []);
      } else {
        assert t == EmbedRequests(chunk);
        if t != [] {
          assert Filter(IsInsert, t) == Filter(IsInsert, []);
        }
      }
    }

    lemma ChunkEventsWellBehaved(finalName: string, chunks: seq<string>, table: string)
      ensures var t := ChunkEvents(finalName, chunks, table);
              NoBlankEmbedRequests(t) && InsertsWellFormed(t, table) && InsertsFollowRequests(t)
    {
      var parts := ChunkSteps(finalName, chunks, table)[..Taken(ChunkStops(chunks))];
      forall k | 0 <= k < |parts|
        ensures NoBlankEmbedRequests(parts[k]) && InsertsWellFormed(parts[k], table) && InsertsFollowRequests(parts[k])
      {
        ChunkStepWellBehaved(finalName, chunks[k], k, table);
      }
      FlattenWellBehaved(parts, table);
    }

    lemma FileEventsWellBehaved(clonedRepoPath: string, relativePath: string, filename: string, table: string)
      ensures var t := FileEvents(clonedRepoPath, relativePath, filename, table);
              NoBlankEmbedRequests(t) && InsertsWellFormed(t, table) && InsertsFollowRequests(t)
    {
      var state := fileSystem(GetFilePath(clonedRepoPath, relativePath, filename));
      if state.Readable? && split(state.content) != [] {
        ChunkEventsWellBehaved(BuildFinalFilename(relativePath, filename), split(state.content), table);
      }
    }

    lemma EntryEventsWellBehaved(clonedRepoPath: string, relativePath: string, files: seq<string>, table: string)
      ensures var t := EntryEvents(clonedRepoPath, relativePath, files, table);
              NoBlankEmbedRequests(t) && InsertsWellFormed(t, table) && InsertsFollowRequests(t)
    {
      var parts := FileSteps(clonedRepoPath, relativePath, files, table)[..Taken(FileStops(clonedRepoPath, relativePath, files))];
      forall k | 0 <= k < |parts|
        ensures NoBlankEmbedRequests(parts[k]) && InsertsWellFormed(parts[k], table) && InsertsFollowRequests(parts[k])
      {
        FileEventsWellBehaved(clonedRepoPath, relativePath, files[k], table);
      }
      FlattenWellBehaved(parts, table);
    }

    /**
     * Blank text never reaches the provider; every insert goes to the table named after the
     * repository, with a non-empty vector, right after the embedding request for its chunk.
     */
    lemma RunWellBehaved(repoName: string, clonedRepoPath: string, loaded: Option<Structure>)
      ensures var t := Run(repoName, clonedRepoPath, loaded);
              NoBlankEmbedRequests(t) && InsertsWellFormed(t, repoName) && InsertsFollowRequests(t)
    {
      if HasEntries(loaded) && setupSucceeds(repoName) {
        var structure := loaded.value;
        var parts := EntrySteps(clonedRepoPath, structure, repoName)[..Taken(EntryStops(clonedRepoPath, structure))];
        forall k | 0 <= k < |parts|
          ensures NoBlankEmbedRequests(parts[k]) && InsertsWellFormed(parts[k], repoName) && InsertsFollowRequests(parts[k])
        {
          EntryEventsWellBehaved(clonedRepoPath, structure[k].0, structure[k].1, repoName);
        }
        FlattenWellBehaved(parts, repoName);
        ConcatWellBehaved([SetupRequested(repoName)], Flatten(parts), repoName);
      }
    }

    /** Nothing is set up, embedded or stored when the structure is missing or empty; nothing is embedded or stored when the setup fails. */
    lemma EarlyReturns(repoName: string, clonedRepoPath: string, loaded: Option<Structure>)
      ensures !HasEntries(loaded) ==> Run(repoName, clonedRepoPath, loaded) == []
      ensures HasEntries(loaded) && !setupSucceeds(repoName) ==> Run(repoName, clonedRepoPath, loaded) == [SetupRequested(repoName)]
      ensures InsertCount(Run(repoName, clonedRepoPath, loaded)) > 0 ==> HasEntries(loaded) && setupSucceeds(repoName)
    {
      if !HasEntries(loaded) || !setupSucceeds(repoName) {
        assert !IsInsert(SetupRequested(repoName));
      }
    }

    /** Every insert of the chunk loop names the file and the chunk at its position in the splitter output. */
    lemma ChunkInsertsIndexed(finalName: string, chunks: seq<string>, table: string)
      ensures forall e :: e in ChunkEvents(finalName, chunks, table) && e.InsertRequested? ==>
        e.call.filename == finalName && e.call.chunkOrder < |chunks| && chunks[e.call.chunkOrder] == e.call.content
    {
      var parts := ChunkSteps(finalName, chunks, table)[..Taken(ChunkStops(chunks))];
      forall e: Event | e in Flatten(parts) && e.InsertRequested?
        ensures e.call.filename == finalName && e.call.chunkOrder < |chunks| && chunks[e.call.chunkOrder] == e.call.content
      {
        var k := FlattenMember(parts, e);
        assert e in ChunkStep(finalName, chunks[k], k, table);
      }
    }

    /** `call` stores a chunk of the listed file `filename` of the directory `relativePath`, with that chunk's position. */
    predicate InsertFromFile(clonedRepoPath: string, relativePath: string, filename: string, call: InsertCall)
    {
      var state := fileSystem(GetFilePath(clonedRepoPath, relativePath, filename));
      state.Readable? && call.filename == BuildFinalFilename(relativePath, filename)
      && call.chunkOrder < |split(state.content)| && split(state.content)[call.chunkOrder] == call.content
    }

    /** Every insert of a file's requests stores one of that file's chunks at its position. */
    lemma FileInsertsIndexed(clonedRepoPath: string, relativePath: string, filename: string, table: string, e: Event)
      requires e in FileEvents(clonedRepoPath, relativePath, filename, table) && e.InsertRequested?
      ensures InsertFromFile(clonedRepoPath, relativePath, filename, e.call)
    {
      var state := fileSystem(GetFilePath(clonedRepoPath, relativePath, filename));
      ChunkInsertsIndexed(BuildFinalFilename(relativePath, filename), split(state.content), table);
    }

    /**
     * Every insert of a run stores, under the repository's table, a chunk of a file listed in
     * the structure, with the file's final name and the chunk's position in the splitter output.
     */
    lemma RunInsertsIndexed(repoName: string, clonedRepoPath: string, structure: Structure)
      ensures forall e :: e in Run(repoName, clonedRepoPath, Some(structure)) && e.InsertRequested? ==>
        e.call.tableName == repoName
        && exists i, j :: 0 <= i < |structure| && 0 <= j < |structure[i].1|
                          && InsertFromFile(clonedRepoPath, structure[i].0, structure[i].1[j], e.call)
    {
      RunWellBehaved(repoName, clonedRepoPath, Some(structure));
      if structure != [] && setupSucceeds(repoName) {
        var parts := EntrySteps(clonedRepoPath, structure, repoName)[..Taken(EntryStops(clonedRepoPath, structure))];
        forall e | e in Run(repoName, clonedRepoPath, Some(structure)) && e.InsertRequested?
          ensures exists i, j :: 0 <= i < |structure| && 0 <= j < |structure[i].1|
                                 && InsertFromFile(clonedRepoPath, structure[i].0, structure[i].1[j], e.call)
        {
          assert e in Flatten(parts);
          var i := FlattenMember(parts, e);
          var rel, files := structure[i].0, structure[i].1;
          EntryStepAt(clonedRepoPath, structure, repoName, i);
          var fileParts := FileSteps(clonedRepoPath, rel, files, repoName)[..Taken(FileStops(clonedRepoPath, rel, files))];
          var j := FlattenMember(fileParts, e);
          FileStepAt(clonedRepoPath, rel, files, repoName, j);
          FileInsertsIndexed(clonedRepoPath, rel, files[j], repoName, e);
        }
      }
    }

    /**
     * Every chunk with a non-empty embedding is stored at its own index, whatever the earlier
     * chunks' embeddings gave, as long as none of them raised something other than `IOError`.
     */
    lemma ChunkInsertsComplete(finalName: string, chunks: seq<string>, table: string, k: nat)
      requires k < |chunks|
      requires forall j :: 0 <= j < k ==> !EmbeddingRaises(chunks[j])
      requires EmbeddingOf(chunks[k]).Some?
      ensures InsertRequested(InsertCall(finalName, chunks[k], EmbeddingOf(chunks[k]).value, k, table))
              in ChunkEvents(finalName, chunks, table)
    {
      var stops := ChunkStops(chunks);
      TakenCovers(stops, k);
      var parts := ChunkSteps(finalName, chunks, table)[..Taken(stops)];
      var e := InsertRequested(InsertCall(finalName, chunks[k], EmbeddingOf(chunks[k]).value, k, table));
      assert e in parts[k];
      FlattenIncludes(parts, k, e);
    }

    /** A chunk after one whose embedding raised something other than `IOError` is never embedded. */
    lemma ChunksAfterRaiseSkipped(finalName: string, chunks: seq<string>, table: string, j: nat, k: nat)
      requires j < k < |chunks|
      requires EmbeddingRaises(chunks[j])
      ensures forall e :: e in ChunkEvents(finalName, chunks, table) ==> e != EmbedRequested(chunks[k]) || chunks[k] in chunks[..k]
    {
      var stops := ChunkStops(chunks);
      FirstStopFound(stops, j);
      var parts := ChunkSteps(finalName, chunks, table)[..Taken(stops)];
      forall e | e in Flatten(parts)
        ensures e != EmbedRequested(chunks[k]) || chunks[k] in chunks[..k]
      {
        var m := FlattenMember(parts, e);
        if e == EmbedRequested(chunks[k]) {
          assert e in ChunkStep(finalName, chunks[m], m, table);
          assert chunks[m] == chunks[k] && m < k;
          assert chunks[k] == chunks[..k][m];
        }
      }
    }

    /** Each chunk contributes at most one insert. */
    lemma ChunkInsertCount(finalName: string, chunks: seq<string>, table: string)
      ensures InsertCount(ChunkEvents(finalName, chunks, table)) <= |chunks|
    {
      var parts := ChunkSteps(finalName, chunks, table)[..Taken(ChunkStops(chunks))];
      forall k | 0 <= k < |parts| ensures InsertCount(parts[k]) <= 1 {
        ChunkStepWellBehaved(finalName, chunks[k], k, table);
      }
      FlattenInsertCount(parts);
    }

    /** A file yields at most as many inserts as the splitter gives chunks for it, and none unless it is readable. */
    lemma FileInsertCount(clonedRepoPath: string, relativePath: string, filename: string, table: string)
      ensures var state := fileSystem(GetFilePath(clonedRepoPath, relativePath, filename));
              InsertCount(FileEvents(clonedRepoPath, relativePath, filename, table))
                <= if state.Readable? then |split(state.content)| else 0
    {
      var state := fileSystem(GetFilePath(clonedRepoPath, relativePath, filename));
      if state.Readable? && split(state.content) != [] {
        ChunkInsertCount(BuildFinalFilename(relativePath, filename), split(state.content), table);
      }
    }

    /** The file loop reaches the `j`-th file when no earlier file raises, and the entry loop the `i`-th entry when no earlier entry raises. */
    lemma FileEventsInEntry(clonedRepoPath: string, rel: string, files: seq<string>, table: string, j: nat, e: Event)
      requires j < |files| && forall m :: 0 <= m < j ==> !FileRaises(clonedRepoPath, rel, files[m])
      requires e in FileEvents(clonedRepoPath, rel, files[j], table)
      ensures e in EntryEvents(clonedRepoPath, rel, files, table)
    {
      var stops := FileStops(clonedRepoPath, rel, files);
      TakenCovers(stops, j);
      var parts := FileSteps(clonedRepoPath, rel, files, table)[..Taken(stops)];
      assert parts[j] == FileEvents(clonedRepoPath, rel, files[j], table);
      FlattenIncludes(parts, j, e);
    }

    lemma EntryEventsInRun(repoName: string, clonedRepoPath: string, structure: Structure, i: nat, e: Event)
      requires setupSucceeds(repoName)
      requires i < |structure| && forall m :: 0 <= m < i ==> !EntryRaises(clonedRepoPath, structure[m].0, structure[m].1)
      requires e in EntryEvents(clonedRepoPath, structure[i].0, structure[i].1, repoName)
      ensures e in Run(repoName, clonedRepoPath, Some(structure))
    {
      var stops := EntryStops(clonedRepoPath, structure);
      TakenCovers(stops, i);
      var parts := EntrySteps(clonedRepoPath, structure, repoName)[..Taken(stops)];
      assert parts[i] == EntryEvents(clonedRepoPath, structure[i].0, structure[i].1, repoName);
      FlattenIncludes(parts, i, e);
    }

    /**
     * Skip-on-failure: once the table is set up, the `k`-th chunk of the `j`-th file of the
     * `i`-th entry is stored with its index whenever the file is readable and the chunk's
     * embedding is non-empty, whatever was skipped before it, provided no exception escaped
     * earlier (from an earlier entry, an earlier file of its entry, or an earlier chunk).
     */
    lemma ChunkStoredInRun(repoName: string, clonedRepoPath: string, structure: Structure, i: nat, j: nat, k: nat)
      requires setupSucceeds(repoName)
      requires i < |structure| && j < |structure[i].1|
      requires forall m :: 0 <= m < i ==> !EntryRaises(clonedRepoPath, structure[m].0, structure[m].1)
      requires forall m :: 0 <= m < j ==> !FileRaises(clonedRepoPath, structure[i].0, structure[i].1[m])
      requires fileSystem(GetFilePath(clonedRepoPath, structure[i].0, structure[i].1[j])).Readable?
      requires var content := fileSystem(GetFilePath(clonedRepoPath, structure[i].0, structure[i].1[j])).content;
               k < |split(content)| && EmbeddingOf(split(content)[k]).Some?
               && forall m :: 0 <= m < k ==> !EmbeddingRaises(split(content)[m])
      ensures var content := fileSystem(GetFilePath(clonedRepoPath, structure[i].0, structure[i].1[j])).content;
              var chunk := split(content)[k];
              InsertRequested(InsertCall(BuildFinalFilename(structure[i].0, structure[i].1[j]), chunk,
                                         EmbeddingOf(chunk).value, k, repoName))
                in Run(repoName, clonedRepoPath, Some(structure))
    {
      var rel, files := structure[i].0, structure[i].1;
      var content := fileSystem(GetFilePath(clonedRepoPath, rel, files[j])).content;
      var chunks := split(content);
      var finalName := BuildFinalFilename(rel, files[j]);
      var e := InsertRequested(InsertCall(finalName, chunks[k], EmbeddingOf(chunks[k]).value, k, repoName));
      ChunkInsertsComplete(finalName, chunks, repoName, k);
      assert e in FileEvents(clonedRepoPath, rel, files[j], repoName);
      FileEventsInEntry(clonedRepoPath, rel, files, repoName, j, e);
      EntryEventsInRun(repoName, clonedRepoPath, structure, i, e);
    }

    /**
     * Fail-fast: once the table is set up, an undecodable `j`-th file of the `i`-th entry, or
     * a chunk of it whose embedding raises something other than `IOError`, makes `process_files`
     * end with an exception.
     */
    lemma AbortInRun(repoName: string, clonedRepoPath: string, structure: Structure, i: nat, j: nat)
      requires setupSucceeds(repoName) && structure != []
      requires i < |structure| && j < |structure[i].1|
      requires var state := fileSystem(GetFilePath(clonedRepoPath, structure[i].0, structure[i].1[j]));
               state.Undecodable? || (state.Readable? && exists k :: 0 <= k < |split(state.content)| && EmbeddingRaises(split(state.content)[k]))
      ensures RunRaises(repoName, clonedRepoPath, Some(structure))
    {
      var rel, files := structure[i].0, structure[i].1;
      var state := fileSystem(GetFilePath(clonedRepoPath, rel, files[j]));
      if state.Readable? {
        var k :| 0 <= k < |split(state.content)| && EmbeddingRaises(split(state.content)[k]);
        FirstStopFound(ChunkStops(split(state.content)), k);
      }
      assert FileRaises(clonedRepoPath, rel, files[j]);
      FirstStopFound(FileStops(clonedRepoPath, rel, files), j);
      FirstStopFound(EntryStops(clonedRepoPath, structure), i);
    }

    /** Stored rows of a concatenation are the stored rows of its parts. */
    lemma {:induction false} StoredRowsAppend(a: seq<Event>, b: seq<Event>)
      ensures StoredRows(a + b) == StoredRows(a) + StoredRows(b)
      decreases |b|
    {
      if b != [] {
        assert (a + b)[..|a + b| - 1] == a + b[..|b| - 1];
        StoredRowsAppend(a, b[..|b| - 1]);
      } else {
        assert a + b == a;
      }
    }

    /** The stored rows are exactly the insert requests of the trace whose insert succeeded. */
    lemma {:induction false} StoredRowsAreInserts(trace: seq<Event>)
      ensures forall r :: r in StoredRows(trace) <==> InsertRequested(r) in trace && insertSucceeds(r)
    {
      if trace != [] {
        var init, last := trace[..|trace| - 1], trace[|trace| - 1];
        StoredRowsAreInserts(init);
        assert trace == init + [last];
        forall r | InsertRequested(r) in trace && insertSucceeds(r)
          ensures r in StoredRows(trace)
        {
          if InsertRequested(r) !in init {
            assert last == InsertRequested(r);
          }
        }
      }
    }

    /**
     * What `process_files` leaves in the store: rows of the repository's table, each a chunk
     * of a readable listed file under its final name at the chunk's position, and exactly the
     * rows of the run's inserts that succeeded.
     */
    lemma RunStoredRows(repoName: string, clonedRepoPath: string, structure: Structure)
      ensures var t := Run(repoName, clonedRepoPath, Some(structure));
              forall r :: r in StoredRows(t) <==> InsertRequested(r) in t && insertSucceeds(r)
      ensures forall r :: r in StoredRows(Run(repoName, clonedRepoPath, Some(structure))) ==>
        r.tableName == repoName
        && exists i, j :: 0 <= i < |structure| && 0 <= j < |structure[i].1|
                          && InsertFromFile(clonedRepoPath, structure[i].0, structure[i].1[j], r)
    {
      var t := Run(repoName, clonedRepoPath, Some(structure));
      StoredRowsAreInserts(t);
      RunInsertsIndexed(repoName, clonedRepoPath, structure);
      forall r | r in StoredRows(t)
        ensures r.tableName == repoName
                && exists i, j :: 0 <= i < |structure| && 0 <= j < |structure[i].1|
                                  && InsertFromFile(clonedRepoPath, structure[i].0, structure[i].1[j], r)
      {
        assert InsertRequested(r) in t && InsertRequested(r).call == r;
      }
    }

    /**
     * Once set up, a chunk of a readable listed file with a non-empty embedding is a row of
     * the store after the run when its insert succeeds and nothing earlier raised.
     */
    lemma ChunkRowStored(repoName: string, clonedRepoPath: string, structure: Structure, i: nat, j: nat, k: nat)
      requires setupSucceeds(repoName)
      requires i < |structure| && j < |structure[i].1|
      requires forall m :: 0 <= m < i ==> !EntryRaises(clonedRepoPath, structure[m].0, structure[m].1)
      requires forall m :: 0 <= m < j ==> !FileRaises(clonedRepoPath, structure[i].0, structure[i].1[m])
      requires fileSystem(GetFilePath(clonedRepoPath, structure[i].0, structure[i].1[j])).Readable?
      requires var content := fileSystem(GetFilePath(clonedRepoPath, structure[i].0, structure[i].1[j])).content;
               k < |split(content)| && EmbeddingOf(split(content)[k]).Some?
               && (forall m :: 0 <= m < k ==> !EmbeddingRaises(split(content)[m]))
               && insertSucceeds(InsertCall(BuildFinalFilename(structure[i].0, structure[i].1[j]), split(content)[k],
                                            EmbeddingOf(split(content)[k]).value, k, repoName))
      ensures var content := fileSystem(GetFilePath(clonedRepoPath, structure[i].0, structure[i].1[j])).content;
              var chunk := split(content)[k];
              InsertCall(BuildFinalFilename(structure[i].0, structure[i].1[j]), chunk, EmbeddingOf(chunk).value, k, repoName)
                in StoredRows(Run(repoName, clonedRepoPath, Some(structure)))
    {
      ChunkStoredInRun(repoName, clonedRepoPath, structure, i, j, k);
      StoredRowsAreInserts(Run(repoName, clonedRepoPath, Some(structure)));
    }
  }
}
