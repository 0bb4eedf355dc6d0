# doctech-ia ingestion pipeline, modelled in Dafny

This project models the decision logic of the doctech-ia ingestion pipeline. The pipeline:

1. checks and authenticates a Git repository URL and derives the clone's directory name (`RepoManager`);
2. walks the working copy and keeps, per directory, the files worth indexing (`RepoAnalyzer`);
3. reads every kept file back, splits it into chunks, embeds each chunk and stores the vectors (`RepoCodeSplitter`);
4. chooses the embedding provider from configuration (`EmbeddingFactory`).

The filtering and chunking constants of `conf/config.py` are Dafny `const` sets and integers.

Modules, one per source file plus shared helpers:

- `Wrappers`: `Option`, `Result` and Python truthiness of an optional string.
- `Strings`: the `str` methods the code calls (`lower` on ASCII, `strip`/`lstrip`/`rstrip` of one character, `replace`, `startswith`, `endswith`, `in`, `rfind`, `split(c)[0]`, `split(c)[-1]`, `join`).
- `Paths`: `posixpath.join` and `posixpath.splitext`, written out.
- `Seqs`: list comprehension filtering and flattening, and how far a loop that an exception ends gets.
- `Config`: `conf/config.py`.
- `Analyzer`: `src/core/repo_analyzer.py`.
  - The working copy is an in-memory tree of directories.
  - `os.walk`'s top-down traversal is a stack loop, `BuildStructure`, whose sub-directory list is pruned in place by `ProcessDirectory` through a `WalkFrame` object.
  - The loop is proved equal to a recursive walk, `StructureOf`, about which soundness and completeness are proved.
  - The structure dictionary is a sequence of (key, files) pairs, so insertion order is kept.
- `Splitter`: `src/core/repo_code_splitter.py`.
  - `RepoCodeSplitter` is a class whose fields are the oracles it calls: the selected provider, the file system, the text splitter, `generate_embedding`, `setup_database` and `insert_embedding`.
  - A ghost `trace` records every request made of the provider and the store.
  - `ProcessFiles`, a loop over entries, files and chunks, is proved to produce exactly the trace of the function `Run`, about which the properties are proved.
  - Failures the source catches (a missing file, an `IOError`, an empty or missing vector, a failed insert) skip one file or chunk. The two exceptions it does not catch (an undecodable file, a provider exception other than `IOError`) end the run; each loop is modelled as running up to and including the iteration that raised.
- `Manager`: `src/core/repo_manager.py`.
  - `urlparse` is a parameter (`parse: string -> ParsedUrl`) that gives the six components.
  - `urlunparse` is written out for a URL with an authority.
  - The two regular expressions are written out as recognisers for the shapes they accept. These are the lazy group and optional suffix of the name expression, and the character classes of the validation expression.
- `Factory`: `src/embeddings/embedding_factory.py`.

## Model

| member | source | states |
|---|---|---|
| Config.ChunkOverlapBelowSize | conf/config.py:37-40 | both chunk overlaps are strictly smaller than their chunk sizes |
| Config.IgnoredAndAllowedExtensionsDisjoint | conf/config.py:185-240 | no extension is both ignored and allowed |
| Config.AllowedExtensionsWellFormed | conf/config.py:208-240 | every allowed extension is a lower-case dot followed by neither dots nor slashes, the form `splitext` of a lower-cased name reports |
| Config.DocExtensionsNotAllowed | conf/config.py:208-241 | `.md` and `.rst` are not allowed extensions |
| Config.MinifiedBundleNotListed | conf/config.py:66-184 | `app.min.js` is not an ignored name; the glob-like entries are literal strings |
| Config.ManifestsListed | conf/config.py:66-184 | `package.json`, `tsconfig.json` and `__init__.py` are ignored names |
| Paths.PathJoinShape | src/core/repo_code_splitter.py:39-40 | `posixpath.join(a, b)` ends in `b`; an absolute `b` replaces `a`; otherwise exactly one `/` separates them |
| Paths.SplitExtShape | src/core/repo_analyzer.py:19 | root and extension of `splitext` concatenate back to the path; a non-empty extension is a dot followed by neither dots nor slashes |
| Paths.SplitExtCharacterization | src/core/repo_analyzer.py:19 | for every extension `e`: `splitext(p)[1] == e` iff `p` ends in `e` behind a last path component not made only of dots |
| Analyzer.AdmissionCharacterization | src/core/repo_analyzer.py:15-20 | a file is admitted iff its lower-cased name is not ignored and ends in an allowed extension behind a name not made only of dots |
| Analyzer.AdmissionIgnoresCase | src/core/repo_analyzer.py:19-20 | a name and its lower-cased form are admitted alike |
| Analyzer.AdmittedName | src/core/repo_analyzer.py:19-20 | a plain stem in any letter case followed by an allowed (lower-case) extension is admitted iff its lower-cased form is not an ignored name; upper-case extensions are covered by `Analyzer.AdmissionIgnoresCase` |
| Analyzer.IgnoredNameRefused | src/core/repo_analyzer.py:20 | a name whose lower-cased form is ignored is refused |
| Analyzer.MinifiedBundleAdmitted | src/core/repo_analyzer.py:19-20 | `app.min.js` is admitted: ignored names are matched exactly, not as globs |
| Analyzer.ManifestRefused | src/core/repo_analyzer.py:20 | `package.json`, `tsconfig.json` and `__init__.py` are refused although their extensions are allowed |
| Analyzer.DocumentationRefused | src/core/repo_analyzer.py:19-20 | a name whose extension is `.md` or `.rst` in any case is refused |
| Analyzer.DotFileRefused | src/core/repo_analyzer.py:19-20 | a name that is a dot followed by an extension-like text (`.py`, `.bashrc`) has no extension and is refused |
| Analyzer.FilterAllowedFiles | src/core/repo_analyzer.py:22-26 | the result is a subsequence of the input (order kept) and holds only admitted names |
| Analyzer.FilterAllowedFilesKeepsAdmitted | src/core/repo_analyzer.py:26 | every admitted name is kept as many times as it is listed |
| Analyzer.FilterAllowedFilesIdempotent | src/core/repo_analyzer.py:26 | filtering twice equals filtering once |
| Analyzer.DirectoryIgnoreExamples | src/core/repo_analyzer.py:28-32 | directory matching is exact and case-sensitive (`.git` ignored, `.GIT` not) |
| Analyzer.GetRelativePath | src/core/repo_analyzer.py:34-39 | the key starts with `/` and has no `\`; `.` maps to `/`; otherwise the key is `/` followed by the relative path with `\` turned into `/` |
| Analyzer.KeyInjective | src/core/repo_analyzer.py:34-39 | directories whose names are plain get distinct keys |
| Analyzer.BackslashNamesCollide | src/core/repo_analyzer.py:38-39 | a directory named `a\b` and the directory `a/b` get the same key `/a/b` |
| Analyzer.Prune | src/core/repo_analyzer.py:48 | the kept sub-directories are a subsequence of the listed ones, none with an ignored name |
| Analyzer.WalkSound | src/core/repo_analyzer.py:41-68 | every frame of the pruned walk is a directory reached through names none of which is ignored |
| Analyzer.WalkComplete | src/core/repo_analyzer.py:41-68 | every directory reached through names none of which is ignored is a frame of the walk |
| Analyzer.Put | src/core/repo_analyzer.py:67-68 | dictionary assignment: the key maps to the new value, every other key keeps its value |
| Analyzer.PutKeys | src/core/repo_analyzer.py:67-68 | assignment keeps key order and appends a new key at the end |
| Analyzer.EmitWellFormed | src/core/repo_analyzer.py:51-54 | recorded entries have a `/`-rooted key without `\`, a non-empty list of admitted files, and distinct keys |
| Analyzer.StructureSound | src/core/repo_analyzer.py:56-70 | the built structure is well formed and each entry is the key and admitted files of a directory not under an ignored directory |
| Analyzer.StructureComplete | src/core/repo_analyzer.py:56-70 | every unignored directory holding an admitted file has its key in the structure (the key only; what each entry maps to is stated by `Analyzer.StructureSound`) |
| Analyzer.ProcessDirectory | src/core/repo_analyzer.py:41-54 | prunes the frame's sub-directory list in place and returns the key and admitted files, or nothing when none is admitted |
| Analyzer.PushChildren | src/core/repo_analyzer.py:63 | pushing the kept sub-directories in reverse makes the pending frames their walks in listing order, then what was pending |
| Analyzer.BuildStructure | src/core/repo_analyzer.py:56-70 | the stack-driven walk with in-place pruning returns exactly `StructureOf(root)` |
| Analyzer.OutputPath | src/core/repo_analyzer.py:99 | the output path is the lower-cased repository name with `.json` under the structure directory: the file name alone when it is absolute, appended directly when the directory is empty or ends in `/`, and after a `/` otherwise |
| Analyzer.AnalyzeAndExport | src/core/repo_analyzer.py:84-101 | a missing path or name is refused before any walk; otherwise the output path is returned whether or not saving succeeded |
| Factory.SelectProvider | src/embeddings/embedding_factory.py:22-32 | `ollama` in any case selects Ollama, `openai` in any case selects OpenAI, anything else selects none (each an iff) |
| Factory.GetEmbeddingService | src/embeddings/embedding_factory.py:12-40 | a service is returned iff the name selects a provider and its construction does not fail; a failed construction gives none |
| Factory.SelectionIgnoresCase | src/embeddings/embedding_factory.py:22 | selection of a name equals selection of its lower-cased form |
| Factory.SelectionAgreesUpToCase | src/embeddings/embedding_factory.py:22-40 | names equal up to case get the same service |
| Factory.SelectionExamples | src/embeddings/embedding_factory.py:22-32 | the default `ollama`, `OLLAMA` and `OpenAI` select a provider; ` ollama` and `huggingface` select none |
| Splitter.LoadRepoStructure | src/core/repo_code_splitter.py:20-33 | a parsed structure is returned; a missing or malformed file gives the empty structure; any other I/O error gives nothing |
| Splitter.BuildFinalFilename | src/core/repo_code_splitter.py:52-57 | the final name never contains `\` |
| Splitter.FinalFilenameOfKey | src/core/repo_code_splitter.py:52-57 | for a key the analyzer built, the final name is the bare name at the root and otherwise the directory path without its leading `/`, `/`, the name |
| Splitter.FilePathOfKey | src/core/repo_code_splitter.py:35-40 | for such a key the file path is the clone root, `/`, and the final name: the file read is the one listed |
| Splitter.RepoCodeSplitter.EmbeddingOfMeaning | src/core/repo_code_splitter.py:76-99 | a vector comes back iff a service is present, the content is not blank and the provider returned a non-empty vector; the provider is asked iff a service is present and the content is not blank |
| Splitter.RepoCodeSplitter.GenerateEmbeddings | src/core/repo_code_splitter.py:76-99 | the result is `EmbeddingOf(content)`; an exception escapes exactly when the provider was asked and raised something other than `IOError`; the only request made is the provider call when it is made |
| Splitter.RepoCodeSplitter.SetupDatabase | src/core/repo_code_splitter.py:122 | records the setup request and returns the store's answer |
| Splitter.RepoCodeSplitter.InsertEmbedding | src/core/repo_code_splitter.py:157-163 | records the insert request and returns the store's answer |
| Splitter.RepoCodeSplitter.StoreChunk | src/core/repo_code_splitter.py:149-175 | one chunk: the embedding request, then the insert of a non-empty vector with the chunk's index; it raises exactly when its embedding does |
| Splitter.RepoCodeSplitter.StoreChunks | src/core/repo_code_splitter.py:148-175 | the chunk loop makes exactly the requests `ChunkEvents` lists (every chunk up to and including the first whose embedding raises) and raises exactly when some chunk's embedding does |
| Splitter.RepoCodeSplitter.ProcessFile | src/core/repo_code_splitter.py:128-146 | a missing, unreadable or undecodable file, or one without chunks, makes no request; otherwise the chunk loop runs on its chunks; it raises for an undecodable file or when the chunk loop raises |
| Splitter.RepoCodeSplitter.ProcessEntry | src/core/repo_code_splitter.py:127-175 | the file loop of one entry makes exactly the requests `EntryEvents` lists (every file up to and including the first that raises) and raises exactly when some file does |
| Splitter.RepoCodeSplitter.ProcessFiles | src/core/repo_code_splitter.py:101-175 | `process_files` makes exactly the requests `Run` lists, and ends with an exception exactly when `RunRaises` holds, given a service whenever there is something to process; the store's rows afterwards are the earlier rows followed by the rows of the run |
| Splitter.RepoCodeSplitter.RunWellBehaved | src/core/repo_code_splitter.py:148-163 | blank text never reaches the provider; every insert goes to the repository's table with a non-empty vector, right after the request that embedded its chunk |
| Splitter.RepoCodeSplitter.EarlyReturns | src/core/repo_code_splitter.py:108-124 | no request without a non-empty structure; only the setup request when setup fails; an insert implies both succeeded |
| Splitter.RepoCodeSplitter.ChunkInsertsIndexed | src/core/repo_code_splitter.py:148-163 | every insert names the file and carries the chunk found at its `chunk_order` in the splitter output |
| Splitter.RepoCodeSplitter.FileInsertsIndexed | src/core/repo_code_splitter.py:128-163 | every insert made for a file stores one of that readable file's chunks, under its final name, at the chunk's position |
| Splitter.RepoCodeSplitter.RunInsertsIndexed | src/core/repo_code_splitter.py:126-163 | every insert of a run goes to the repository's table and stores a chunk of a file listed in the structure, under its final name, at the chunk's position |
| Splitter.RepoCodeSplitter.ChunkInsertsComplete | src/core/repo_code_splitter.py:148-175 | every chunk with a non-empty embedding is inserted at its own index, whatever the earlier chunks' embeddings gave, provided none of them raised something other than `IOError` |
| Splitter.RepoCodeSplitter.ChunksAfterRaiseSkipped | src/core/repo_code_splitter.py:148-175 | after a chunk whose embedding raises something other than `IOError`, no later chunk is sent to the provider (unless the same text came earlier) |
| Splitter.RepoCodeSplitter.ChunkInsertCount | src/core/repo_code_splitter.py:148-163 | the chunk loop inserts at most as many rows as there are chunks |
| Splitter.RepoCodeSplitter.FileInsertCount | src/core/repo_code_splitter.py:131-146 | a file that is not readable yields no insert; a readable one at most one per chunk |
| Splitter.RepoCodeSplitter.ChunkStoredInRun | src/core/repo_code_splitter.py:126-175 | once set up, every chunk of a readable listed file with a non-empty embedding is inserted with its index, whatever was skipped before it, provided no earlier entry, file or chunk raised |
| Splitter.RepoCodeSplitter.AbortInRun | src/core/repo_code_splitter.py:126-149 | once set up, a listed file that cannot be decoded, or a chunk of it whose embedding raises something other than `IOError`, makes `process_files` end with an exception |
| Splitter.RepoCodeSplitter.StoredRowsAreInserts | src/core/repo_code_splitter.py:157-169 | a row is stored iff the trace holds its insert request and that insert succeeded |
| Splitter.RepoCodeSplitter.RunStoredRows | src/core/repo_code_splitter.py:126-169 | after a run the store holds exactly the rows of the run's successful inserts, each in the repository's table and each a chunk of a readable listed file under its final name at the chunk's position |
| Splitter.RepoCodeSplitter.ChunkRowStored | src/core/repo_code_splitter.py:126-169 | once set up, a chunk of a readable listed file with a non-empty embedding whose insert succeeds is a row of the store, provided nothing earlier raised |
| Manager.IdentifyPlatformFirstMatch | src/core/repo_manager.py:18-29 | the platform reported is the first, in source order, whose marker the host contains (iff) |
| Manager.IdentifyPlatformNone | src/core/repo_manager.py:18-29 | no platform is reported iff the host contains none of the markers |
| Manager.UnparseStartsWithAuthority | src/core/repo_manager.py:59-68 | `urlunparse` writes the scheme and the authority first and unchanged |
| Manager.AuthenticatedUrl | src/core/repo_manager.py:45-68 | an error iff the host is Bitbucket or Azure and no user name is given; otherwise only the authority changes, and it ends in `token@host` |
| Manager.BuildAuthenticationUrl | src/core/repo_manager.py:31-68 | without a token the URL comes back unchanged; with one it fails exactly when `AuthenticatedUrl` does |
| Manager.AuthenticatedUrlRoundTrip | src/core/repo_manager.py:45-57 | reading the new authority back gives the original host and either user name and token as password, or the token alone as user name |
| Manager.AuthenticationUrlShape | src/core/repo_manager.py:45-68 | the authenticated URL starts with the scheme, `//`, user information, `@` and the original authority |
| Manager.GitHubTokenUrl | src/core/repo_manager.py:51-68 | a plain GitHub HTTPS URL with a token and no user name becomes `https://token@host/path` |
| Manager.LazyGroupEnd | src/core/repo_manager.py:74-76 | the lazy group ends at the least place without a line break before it that leaves an optional `.git` and query to the end; none when no place does |
| Manager.SshRepoPathOfPath | src/core/repo_manager.py:74-78 | for `git@host:path.git` the name expression matches with group 2 equal to `path` |
| Manager.HttpsRepoName | src/core/repo_manager.py:81-90 | the HTTPS name has no `/` |
| Manager.HttpsRepoNameOfPath | src/core/repo_manager.py:81-90 | the path `/owner/repo.git` gives `repo` |
| Manager.ExtractRepoNameAsWritten | src/core/repo_manager.py:70-90 | the name as the source computes it has no `/` |
| Manager.ExtractRepoName | src/core/repo_manager.py:70-90 | the corrected name has no `/` |
| Manager.SshNameAsWrittenDropsSuffix | src/core/repo_manager.py:74-79 | for `git@host:owner/stem.ext.git` the source gives `stem` while the repository is `stem.ext` |
| Manager.SocketIoSshName | src/core/repo_manager.py:74-79 | `git@github.com:socketio/socket.io.git` gives `socket` as written and `socket.io` corrected |
| Manager.SshAndHttpsNamesAgree | src/core/repo_manager.py:70-90 | the corrected name of `git@host:owner/repo.git` equals that of an HTTPS URL with path `/owner/repo.git`: `repo` |
| Manager.ValidUrlForms | src/core/repo_manager.py:92-108 | the empty string is refused; non-empty HTTP(S) URLs with host and path are accepted; other accepted URLs start with `git@` or `ssh://git@` and have a host, separator and path |
| Manager.SshUrlIsValid | src/core/repo_manager.py:103-106 | every `git@host:path` whose host and path use the allowed characters is valid |
| Manager.ValidSshUrlHasSshPath | src/core/repo_manager.py:74-106 | a URL the validation pattern accepts, not ending in `/` or a line break, is matched by the name expression too |
| Manager.GetRepo | src/core/repo_manager.py:110-118 | an invalid URL is refused before anything else; with no token the URL itself is used; the name has no `/`; the only other error is a missing user name beside a token. The name comes from the corrected `Manager.ExtractRepoName`. It differs from the name `get_repo` as written computes exactly when the SSH expression matches and `splitext` finds an extension in the matched path (`socket.io` differs, `.github` does not; see Findings) |
| Manager.NamesAgreeExactly | src/core/repo_manager.py:70-90 | the corrected name and the name as written agree iff the SSH expression does not match or `splitext` finds no extension in the path it matched |
| Manager.BareHostHasEmptyName | src/core/repo_manager.py:110-118 | `https://host/` is valid and gets the empty name |

## Left out

- Git clone and pull, the network and DNS errors, logging, `os.makedirs` and the JSON file format. `get_repo` is modelled up to the point where it runs a git command; the destination path and the clone itself are not modelled.
- `urlparse` is not written out. It is a parameter of the members that need it, and `urlunparse` is written out only for a URL with an authority, which is every URL the authentication step sees after validation.
- Regular expressions are written out for what the two expressions of `src/core/repo_manager.py` accept, not as a general engine. `\w` is taken to be the ASCII word characters, while Python's `\w` also accepts other Unicode letters and digits.
- `str.lower()` is modelled on ASCII letters only. `str.isspace()` is modelled with the Unicode whitespace set.
- The file system of the working copy is an in-memory tree of names. Symbolic links and permission errors during the walk are not modelled. Reading a listed file is an oracle with four outcomes: missing, an `IOError` (skipped), bytes that are not UTF-8 (the `UnicodeDecodeError` escapes the `IOError` handler and ends `process_files`), or the text. Which exception escapes, and the logging around it, are not modelled; the model records only that one did.
- Manager.GetRepo: it names the clone with the corrected `Manager.ExtractRepoName`, not with `_extract_repo_name` as written. The two differ exactly when the SSH expression matches and `splitext` finds an extension in the matched path. For `git@github.com:socketio/socket.io.git` it gives `socket.io` where `get_repo` gives `socket`. A name whose only dots are leading, such as `.github`, has no extension, so it is the same under both. `Manager.NamesAgreeExactly` proves this condition. The as-written name is `Manager.ExtractRepoNameAsWritten`, and the difference is the row under Findings.
- Splitter.RepoCodeSplitter.ProcessFiles: exceptions raised by `setup_database` and `insert_embedding` are not modelled; their results are booleans.
- The text splitter (`RecursiveCharacterTextSplitter`), the embedding providers and the vector store are oracles. Nothing is claimed about chunk sizes or overlaps. Vectors are `seq<real>` and floating point is not modelled.
- Splitter.RepoCodeSplitter.ProcessFiles: the model log line at `src/core/repo_code_splitter.py:115-120` dereferences the service without a check. The model requires a present service whenever there is something to process, instead of modelling the `AttributeError` that follows otherwise. The provider's `get_model_info` is not modelled.
- The environment reads of `conf/config.py` (`load_dotenv`, `os.getenv`, the `Path` roots) are not modelled. The configured provider name and the structure directory are parameters.
- `src/orchestrator.py`, `main.py`, `src/db/vdb_manager.py` and `src/utils/loggers.py` are not part of this model.
- IsFileAllowed, PathJoin, GetFilePath, EmbeddingOf, IsValidUrl and Unparse carry no contract of their own. What they compute is stated by the lemmas listed above.

## Findings

| source | as written | input that shows it | evidently intended | confidence | as-written member | corrected member |
|---|---|---|---|---|---|---|
| src/core/repo_manager.py:74-79 | applies `os.path.splitext` to the path the SSH expression matched, although the expression has already removed `.git`, so a repository name in which `splitext` finds an extension loses it | `git@github.com:socketio/socket.io.git` gives `socket`, while the HTTPS form `https://github.com/socketio/socket.io.git` gives `socket.io` | `socket.io`, the last segment of the matched path | not executed | Manager.ExtractRepoNameAsWritten, Manager.SocketIoSshName, Manager.SshNameAsWrittenDropsSuffix | Manager.ExtractRepoName (used by Manager.GetRepo), Manager.SshAndHttpsNamesAgree |
