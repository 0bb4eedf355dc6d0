/**
 * Provider selection (`EmbeddingFactory.get_embedding_service`,
 * src/embeddings/embedding_factory.py): a case-insensitive dispatch on the configured
 * provider name to an optional provider. The configured name is a parameter (its default,
 * when the environment does not set it, is `ollama`), and constructing a provider is an
 * oracle that may fail with `ImportError` or `IOError`.
 */
module Factory {
  import opened Wrappers
  import opened Strings

  datatype Provider = Ollama | OpenAI

  /** What constructing the selected provider's service did. */
  datatype Construction = Built | ImportFailed | IOFailed

  /** The provider name used when the environment sets none. */
  const DefaultProviderName: string := "ollama"

  /** The `if`/`elif`/`else` on the lower-cased provider name. */
  function SelectProvider(providerName: string): (provider: Option<Provider>)
    ensures provider == Some(Ollama) <==> Lower(providerName) == "ollama"
    ensures provider == Some(OpenAI) <==> Lower(providerName) == "openai"
    ensures provider == None <==> Lower(providerName) != "ollama" && Lower(providerName) != "openai"
  {
    var provider := Lower(providerName);
    if provider == "ollama" then Some(Ollama)
    else if provider == "openai" then Some(OpenAI)
    else None
  }

  /**
   * `get_embedding_service`: the selected provider's service when its construction succeeds;
   * `None` for an unknown name and for an `ImportError` or `IOError` during construction,
   * which are caught and logged rather than raised.
   */
  function GetEmbeddingService(providerName: string, construct: Provider -> Construction): (service: Option<Provider>)
    ensures service.Some? ==> service == SelectProvider(providerName)
    ensures service.Some? <==> SelectProvider(providerName).Some? && construct(SelectProvider(providerName).value) == Built
  {
    match SelectProvider(providerName)
    case None => None
    case Some(p) => if construct(p) == Built then Some(p) else None
  }

  /** The dispatch does not depend on letter case. */
  lemma SelectionIgnoresCase(providerName: string)
    ensures SelectProvider(providerName) == SelectProvider(Lower(providerName))
  {
    LowerIsLower(providerName);
  }

  /** Two names that differ only in letter case select the same provider. */
  lemma SelectionAgreesUpToCase(a: string, b: string, construct: Provider -> Construction)
    requires Lower(a) == Lower(b)
    ensures GetEmbeddingService(a, construct) == GetEmbeddingService(b, construct)
  {
  }

  /** The default name selects Ollama; names differing in case select alike; surrounding spaces are not stripped. */
  lemma SelectionExamples()
    ensures SelectProvider(DefaultProviderName) == Some(Ollama)
    ensures SelectProvider("OpenAI") == Some(OpenAI)
    ensures SelectProvider("OLLAMA") == Some(Ollama)
    ensures SelectProvider(" ollama") == None
    ensures SelectProvider("huggingface") == None
  {
    assert Lower("OpenAI") == "openai";
    assert Lower("OLLAMA") == "ollama";
    assert Lower(" ollama")[0] == ' ';
    assert Lower("huggingface")[0] == 'h';
  }
}
