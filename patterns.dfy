/** The two regular expressions of the core, written as character-class
    matchers: the keyword pattern `^[a-zA-Z0-9\s]+$` of Annuncio and the
    e-mail pattern `^[a-zA-Z0-9._%+-]+@[a-zA-Z0-9.-]+\.[a-zA-Z]{2,}$` of
    Utente, both applied with String.matches (the whole string). */
module Patterns {
  import opened Base
  import opened JavaText

  predicate IsAsciiLetter(c: char) {
    ('a' <= c <= 'z') || ('A' <= c <= 'Z')
  }

  predicate IsAsciiAlnum(c: char) {
    IsAsciiLetter(c) || IsDigit(c)
  }

  /** `\s` of java.util.regex without UNICODE_CHARACTER_CLASS: [ \t\n\x0B\f\r]. */
  predicate IsRegexSpace(c: char) {
    c == ' ' || ('\t' <= c <= '\r')
  }

  /** `[a-zA-Z0-9\s]` */
  predicate IsKeywordChar(c: char) {
    IsAsciiAlnum(c) || IsRegexSpace(c)
  }

  /** `^[a-zA-Z0-9\s]+$` */
  predicate MatchesKeyword(s: string) {
    |s| > 0 && forall i :: 0 <= i < |s| ==> IsKeywordChar(s[i])
  }

  /** `[a-zA-Z0-9._%+-]`, the local part of an address. */
  predicate IsLocalChar(c: char) {
    IsAsciiAlnum(c) || c == '.' || c == '_' || c == '%' || c == '+' || c == '-'
  }

  /** `[a-zA-Z0-9.-]`, the domain before the last dot. */
  predicate IsDomainChar(c: char) {
    IsAsciiAlnum(c) || c == '.' || c == '-'
  }

  predicate AllLocal(s: string) {
    forall i :: 0 <= i < |s| ==> IsLocalChar(s[i])
  }

  predicate AllDomain(s: string) {
    forall i :: 0 <= i < |s| ==> IsDomainChar(s[i])
  }

  predicate AllLetters(s: string) {
    forall i :: 0 <= i < |s| ==> IsAsciiLetter(s[i])
  }

  /** The matcher: the local part runs up to the first '@' (the local class
      has no '@'), the top-level domain starts after the last '.' (letters
      have no '.'), and the domain lies between the two. */
  predicate MatchesEmail(s: string) {
    match (IndexOf(s, '@'), LastIndexOf(s, '.'))
    case (Some(at), Some(dot)) =>
      1 <= at && at + 2 <= dot && dot + 3 <= |s|
      && AllLocal(s[..at]) && AllDomain(s[at + 1..dot]) && AllLetters(s[dot + 1..])
    case _ => false
  }

  /** Positions `at` and `dot` cut `s` the way the regular expression
      does: a non-empty local part, '@', a non-empty domain, '.', and a
      top-level domain of two or more letters. */
  ghost predicate EmailCut(s: string, at: int, dot: int) {
    1 <= at && at + 2 <= dot && dot + 3 <= |s|
    && s[at] == '@' && s[dot] == '.'
    && AllLocal(s[..at]) && AllDomain(s[at + 1..dot]) && AllLetters(s[dot + 1..])
  }

  /** What the regular expression says: some cut of that shape exists. */
  ghost predicate EmailShape(s: string) {
    exists at, dot :: EmailCut(s, at, dot)
  }

  lemma CutIsMatched(s: string, at: int, dot: int)
    requires EmailCut(s, at, dot)
    ensures MatchesEmail(s)
  {
    assert '@' !in s[..at] by {
      forall i | 0 <= i < at ensures s[..at][i] != '@' {
        assert IsLocalChar(s[..at][i]);
      }
    }
    assert s == s[..at] + ['@'] + s[at + 1..];
    IndexAfter(s[..at], '@', s[at + 1..]);
    assert '.' !in s[dot + 1..] by {
      forall i | dot + 1 <= i < |s| ensures s[i] != '.' {
        assert IsAsciiLetter(s[dot + 1..][i - dot - 1]);
      }
    }
    LastIndexAt(s, '.', dot);
  }

  /** The matcher accepts exactly the strings the regular expression does. */
  lemma EmailMatcherCorrect(s: string)
    ensures MatchesEmail(s) <==> EmailShape(s)
  {
    if MatchesEmail(s) {
      assert EmailCut(s, IndexOf(s, '@').value, LastIndexOf(s, '.').value);
    }
    if EmailShape(s) {
      var at, dot :| EmailCut(s, at, dot);
      CutIsMatched(s, at, dot);
    }
  }

  lemma LastIndexAt(s: string, c: char, k: nat)
    requires k < |s| && s[k] == c && c !in s[k + 1..]
    ensures LastIndexOf(s, c) == Some(k)
  {
  }

  /** A valid address has no character that trim removes, no whitespace
      and no field or keyword separator, so it survives being written in
      and read back from a listings line. */
  lemma EmailText(s: string)
    requires MatchesEmail(s)
    ensures |s| > 0 && IsTrimmed(s) && !IsBlank(s)
    ensures ';' !in s && ',' !in s
    ensures OneLine(s)
  {
    EmailMatcherCorrect(s);
    var at, dot :| EmailCut(s, at, dot);
    assert IsLocalChar(s[..at][0]);
    assert IsAsciiLetter(s[dot + 1..][|s| - dot - 2]);
    forall i | 0 <= i < |s| ensures s[i] != ';' && s[i] != ',' && s[i] != '\n' && s[i] != '\r' {
      if i < at {
        assert IsLocalChar(s[..at][i]);
      } else if at < i < dot {
        assert IsDomainChar(s[at + 1..dot][i - at - 1]);
      } else if dot < i {
        assert IsAsciiLetter(s[dot + 1..][i - dot - 1]);
      }
    }
  }

  /** A keyword has no field or keyword separator in it. */
  lemma KeywordText(s: string)
    requires MatchesKeyword(s)
    ensures ';' !in s && ',' !in s
  {
    forall i | 0 <= i < |s| ensures s[i] != ';' && s[i] != ',' {
      assert IsKeywordChar(s[i]);
    }
  }
}
