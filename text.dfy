/** String predicates used by the core: Java's notion of whitespace, Spring's
    StringUtils.hasText, the bean-validation @NotBlank check and String.startsWith. */
module Text {
  import opened Wrappers

  /** Character.isWhitespace: the Unicode space, line and paragraph separators other than
      the three non-breaking spaces, plus the ASCII controls TAB..CR and FS..US. */
  predicate IsWhitespace(c: char) {
    || c == ' '
    || '\t' <= c <= '\r'
    || '\U{001C}' <= c <= '\U{001F}'
    || c == '\U{1680}'
    || '\U{2000}' <= c <= '\U{2006}'
    || '\U{2008}' <= c <= '\U{200A}'
    || c == '\U{2028}' || c == '\U{2029}'
    || c == '\U{205F}' || c == '\U{3000}'
  }

  /** StringUtils.hasText: not null, not empty, and some character is not whitespace. */
  predicate HasText(s: Option<string>) {
    s.Some? && exists i :: 0 <= i < |s.value| && !IsWhitespace(s.value[i])
  }

  /** String.startsWith: case-sensitive, character by character. */
  predicate StartsWith(s: string, prefix: string) {
    |prefix| <= |s| && s[..|prefix|] == prefix
  }

  /** @NotBlank (Hibernate Validator): not null and not empty after String.trim(), which
      strips every character up to and including U+0020. */
  predicate NotBlank(s: Option<string>) {
    s.Some? && exists i :: 0 <= i < |s.value| && s.value[i] > ' '
  }

  /** String.format("%s", s): a null argument prints as "null". */
  function Display(s: Option<string>): string {
    match s
    case Some(v) => v
    case None => "null"
  }
}
