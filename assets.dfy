/** The theme check of the embedded assets. */
module Assets {

  /** The themes shipped with the tool. */
  const Themes: set<string> := {"dark", "light", "white"}

  /** ValidateTheme: a lookup in a table of the known theme names, exact and case-sensitive. */
  function ValidateTheme(theme: string): (valid: bool)
    ensures valid <==> theme in Themes
  {
    var validThemes := map["dark" := true, "light" := true, "white" := true];
    theme in validThemes && validThemes[theme]
  }

  /** The three themes pass; a capitalised name, the empty name and any other name fail. */
  lemma ValidateThemeExamples()
    ensures ValidateTheme("dark") && ValidateTheme("light") && ValidateTheme("white")
    ensures !ValidateTheme("invalid") && !ValidateTheme("") && !ValidateTheme("Dark")
  {
    assert "Dark"[0] != "dark"[0];
    assert "invalid"[0] != "dark"[0] && |"invalid"| != |"light"|;
  }
}
