/** `getLanguageDisplayName`: the display name of a language id. */
module Language {

  const KnownIds: seq<string> := ["typescript", "javascript", "python", "go", "ruby", "php"]
  const DisplayNames: seq<string> := ["TypeScript", "JavaScript", "Python", "Go", "Ruby", "PHP"]

  /** The switch over the six known ids; any other id is its own display name. */
  function DisplayName(lang: string): string {
    match lang
    case "typescript" => "TypeScript"
    case "javascript" => "JavaScript"
    case "python" => "Python"
    case "go" => "Go"
    case "ruby" => "Ruby"
    case "php" => "PHP"
    case _ => lang
  }

  /** The k-th known id maps to the k-th display name. */
  lemma KnownNames(k: nat)
    requires k < |KnownIds|
    ensures DisplayName(KnownIds[k]) == DisplayNames[k]
  {
  }

  /** Any id outside the six is returned unchanged. */
  lemma UnknownUnchanged(lang: string)
    requires lang !in KnownIds
    ensures DisplayName(lang) == lang
  {
  }

  lemma UnknownExamples()
    ensures DisplayName("typescriptreact") == "typescriptreact"
    ensures DisplayName("vue") == "vue"
  {
  }

  /** A display name is its own display name. */
  lemma DisplayNameIdempotent(lang: string)
    ensures DisplayName(DisplayName(lang)) == DisplayName(lang)
  {
  }
}
