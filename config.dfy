/**
 * The filtering and chunking constants of the ingestion pipeline (conf/config.py). Only the
 * fixed sets and integers are modelled; the values read from the environment are not.
 */
module Config {
  import opened Strings
  import Paths

  /** Code chunks: at most this many characters each ... */
  const ChunkSizeCode: nat := 1000
  /** ... with this many characters shared between neighbours. */
  const ChunkOverlapCode: nat := 200
  /** The documentation profile (declared, not used by the code splitter). */
  const ChunkSizeMd: nat := 1500
  const ChunkOverlapMd: nat := 150

  /** Directory names the walk never descends into (exact, case-sensitive names). */
  const IgnoredDirectories: set<string> := {
    ".git", ".svn", ".hg", ".bzr", "__pycache__", "node_modules", "bower_components",
    "jspm_packages", "venv", ".venv", "env", "virtualenv", ".vscode", "build", "dist", "bin",
    "obj", ".idea", ".ipynb_checkpoints", "target", "out"
  }

  /** Operating-system clutter, package-manager logs and lock files. */
  const IgnoredSystemAndLockFiles: set<string> := {
    ".DS_Store", "Thumbs.db", "desktop.ini", "npm-debug.log", "yarn-error.log",
    "package-lock.json", "yarn.lock", ".prettierrc.json", "eslint.config.js", "jsconfig.json",
    "package.json", "pnpm-lock.yaml", "npm-shrinkwrap.json", "poetry.lock", "Pipfile.lock",
    "requirements.txt.lock", "Cargo.lock", "ext.config.ts", "tailwind.config.ts",
    "next.config.ts", "composer.lock", ".lock"
  }

  /** Environment and version-control files. */
  const IgnoredEnvAndVcsFiles: set<string> := {
    ".env", ".env.*", "*.env", "*.cfg", "*.ini", ".flaskenv", ".gitignore", ".gitattributes",
    ".gitmodules", ".github", ".gitlab-ci.yml"
  }

  /** Linter, formatter, build and test configuration files. */
  const IgnoredToolConfigFiles: set<string> := {
    ".prettierrc", ".eslintrc", ".eslintignore", ".stylelintrc", ".editorconfig", ".jshintrc",
    ".pylintrc", ".flake8", "mypy.ini", "pyproject.toml", "tsconfig.json", "webpack.config.js",
    "babel.config.js", "rollup.config.js", "jest.config.js", "karma.conf.js", "vite.config.js",
    "next.config.js"
  }

  /** Minified bundles, source maps, archives and installers, written as patterns. */
  const IgnoredBundleAndArchiveNames: set<string> := {
    "*.min.js", "*.min.css", "*.bundle.js", "*.bundle.css", "*.map", "*.gz", "*.zip", "*.tar",
    "*.tgz", "*.rar", "*.7z", "*.iso", "*.dmg", "*.img", "*.msix", "*.appx", "*.appxbundle",
    "*.xap", "*.ipa", "*.deb", "*.rpm", "*.msi", "*.exe"
  }

  /** Compiled objects and libraries, and Python build products, written as patterns. */
  const IgnoredBinaryNames: set<string> := {
    "*.dll", "*.so", "*.dylib", "*.o", "*.obj", "*.jar", "*.war", "*.ear", "*.jsm", "*.class",
    "*.pyc", "*.pyd", "*.pyo", "__pycache__", "*.a", "*.lib", "*.lo", "*.la", "*.slo", "*.dSYM",
    "*.egg", "*.egg-info"
  }

  /** Dependency, coverage and build output names, and two single files. */
  const IgnoredOutputNames: set<string> := {
    "*.dist-info", "*.eggs", "node_modules", "bower_components", "jspm_packages", "lib-cov",
    "coverage", "htmlcov", ".nyc_output", ".tox", "dist", "build", "bld", "out", "bin", "target",
    "packages/*/dist", "packages/*/build", ".output", "__init__.py", ".gitkeep"
  }

  /**
   * Names a file may not have (compared whole, after lower-casing the file name). The
   * entries with `*` are literal names, not patterns, and the mixed-case entries can never
   * equal a lower-cased name.
   */
  const IgnoredFiles: set<string> :=
    IgnoredSystemAndLockFiles + IgnoredEnvAndVcsFiles + IgnoredToolConfigFiles
    + IgnoredBundleAndArchiveNames + IgnoredBinaryNames + IgnoredOutputNames

  /** Extensions of scratch, log and data files (declared; the filter does not read it). */
  const IgnoredExts: set<string> := {
    ".log", ".tmp", ".bak", ".csv", ".tsv", ".swp", ".swo", ".old", ".orig", ".rej", ".pid",
    ".seed", ".dump", ".dat", ".db", ".db-journal", ".sqlite", ".sqlite3", ".lock", ".cache"
  }

  /** The extensions of admitted files, compared with the lower-cased extension. */
  const AllowedFileExtensions: set<string> := AllowedLanguageExtensions + AllowedMarkupAndScriptExtensions

  /** Programming-language source extensions. */
  const AllowedLanguageExtensions: set<string> := {
    ".py", ".js", ".ts", ".java", ".cpp", ".h", ".c", ".go", ".rs", ".php", ".rb", ".cs", ".kt",
    ".swift", ".m", ".vue", ".jsx", ".tsx"
  }

  /** Markup, style, data, shell and SQL extensions. */
  const AllowedMarkupAndScriptExtensions: set<string> := {
    ".html", ".css", ".scss", ".less", ".json", ".xml", ".yaml", ".yml", ".sh", ".bash", ".ps1",
    ".bat", ".sql"
  }

  /** Documentation extensions (declared; not admitted by the filter). */
  const DocFileExtensions: set<string> := {
    ".md", ".rst"
  }

  /** Both chunking profiles overlap by strictly less than the chunk size. */
  lemma ChunkOverlapBelowSize()
    ensures ChunkOverlapCode < ChunkSizeCode
    ensures ChunkOverlapMd < ChunkSizeMd
  {
  }

  /** No extension is both ignored and allowed. */
  lemma IgnoredAndAllowedExtensionsDisjoint()
    ensures IgnoredExts * AllowedFileExtensions == {}
  {
    IgnoredAndLanguageExtensionsDisjoint();
    IgnoredAndMarkupExtensionsDisjoint();
  }

  lemma IgnoredAndLanguageExtensionsDisjoint()
    ensures IgnoredExts * AllowedLanguageExtensions == {}
  {
  }

  lemma IgnoredAndMarkupExtensionsDisjoint()
    ensures IgnoredExts * AllowedMarkupAndScriptExtensions == {}
  {
  }

  /** The shape `splitext` gives a lower-cased extension. */
  predicate WellFormedExtension(e: string)
  {
    |e| >= 2 && Paths.IsExtension(e) && IsLower(e)
  }

  /** The language extensions are lower-case dot-led extensions. */
  lemma LanguageExtensionsWellFormed()
    ensures forall e :: e in AllowedLanguageExtensions ==> WellFormedExtension(e)
  {
    assert WellFormedExtension(".py");
    assert WellFormedExtension(".js");
    assert WellFormedExtension(".ts");
    assert WellFormedExtension(".java");
    assert WellFormedExtension(".cpp");
    assert WellFormedExtension(".h");
    assert WellFormedExtension(".c");
    assert WellFormedExtension(".go");
    assert WellFormedExtension(".rs");
    assert WellFormedExtension(".php");
    assert WellFormedExtension(".rb");
    assert WellFormedExtension(".cs");
    assert WellFormedExtension(".kt");
    assert WellFormedExtension(".swift");
    assert WellFormedExtension(".m");
    assert WellFormedExtension(".vue");
    assert WellFormedExtension(".jsx");
    assert WellFormedExtension(".tsx");
  }

  /** The markup and script extensions are lower-case dot-led extensions. */
  lemma MarkupAndScriptExtensionsWellFormed()
    ensures forall e :: e in AllowedMarkupAndScriptExtensions ==> WellFormedExtension(e)
  {
    assert WellFormedExtension(".html");
    assert WellFormedExtension(".css");
    assert WellFormedExtension(".scss");
    assert WellFormedExtension(".less");
    assert WellFormedExtension(".json");
    assert WellFormedExtension(".xml");
    assert WellFormedExtension(".yaml");
    assert WellFormedExtension(".yml");
    assert WellFormedExtension(".sh");
    assert WellFormedExtension(".bash");
    assert WellFormedExtension(".ps1");
    assert WellFormedExtension(".bat");
    assert WellFormedExtension(".sql");
  }

  /** Every allowed extension is a lower-case dot-led extension, comparable with `splitext`'s. */
  lemma AllowedExtensionsWellFormed()
    ensures forall e :: e in AllowedFileExtensions ==> WellFormedExtension(e)
  {
    LanguageExtensionsWellFormed();
    MarkupAndScriptExtensionsWellFormed();
  }

  /** Markdown and reStructuredText files are not admitted by extension. */
  lemma DocExtensionsNotAllowed()
    ensures DocFileExtensions * AllowedFileExtensions == {}
  {
  }

  /** No configuration or lock file is named like a minified bundle. */
  lemma MinifiedBundleNotAConfigName()
    ensures "app.min.js" !in IgnoredSystemAndLockFiles + IgnoredEnvAndVcsFiles + IgnoredToolConfigFiles
  {
    assert "app.min.js" !in IgnoredSystemAndLockFiles;
    assert "app.min.js" !in IgnoredEnvAndVcsFiles;
  }

  /** The pattern-like entries are literal names, so `app.min.js` does not match `*.min.js`. */
  lemma MinifiedBundleNotAPatternName()
    ensures "app.min.js" !in IgnoredBundleAndArchiveNames + IgnoredBinaryNames + IgnoredOutputNames
  {
    assert "app.min.js" !in IgnoredBundleAndArchiveNames;
    assert "app.min.js" !in IgnoredBinaryNames;
  }

  /** The ignored names are literal: a minified bundle such as `app.min.js` is not listed, only `*.min.js` is. */
  lemma MinifiedBundleNotListed()
    ensures "app.min.js" !in IgnoredFiles
  {
    MinifiedBundleNotAConfigName();
    MinifiedBundleNotAPatternName();
  }

  /** JavaScript sources are admitted by extension. */
  lemma JsAllowed()
    ensures ".js" in AllowedFileExtensions
  {
    assert ".js" in AllowedLanguageExtensions;
  }

  /** Manifests and package markers are listed by their exact names. */
  lemma ManifestsListed()
    ensures "package.json" in IgnoredFiles && "tsconfig.json" in IgnoredFiles && "__init__.py" in IgnoredFiles
  {
    assert "package.json" in IgnoredSystemAndLockFiles;
    assert "tsconfig.json" in IgnoredToolConfigFiles;
    assert "__init__.py" in IgnoredOutputNames;
  }
}
