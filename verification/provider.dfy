/**
 * Provider: the three cloud backends and the parser that picks one from a
 * configuration string.
 */
module Providers {
  import opened Errors
  import opened JavaText

  datatype Provider = AWS | GCP | AZURE

  /** The enum constant's name. */
  function Name(p: Provider): string {
    match p
    case AWS => "AWS"
    case GCP => "GCP"
    case AZURE => "AZURE"
  }

  /** The spelling parse matches after lower-casing its input. */
  function Key(p: Provider): string {
    match p
    case AWS => "aws"
    case GCP => "gcp"
    case AZURE => "azure"
  }

  /** The keys are the constants' names in lower case. */
  lemma KeyIsLowerName(p: Provider)
    ensures Key(p) == ToLower(Name(p))
  {
    var n := Name(p);
    assert ToLower(n) == [LowerChar(n[0])] + ToLower(n[1..]);
  }

  const UNKNOWN_PROVIDER: string := "Unknown provider: "

  /** The switch of parse: which provider a trimmed, lower-cased setting names. */
  function OfKey(key: string): (r: Option<Provider>)
    ensures r.Some? ==> key == Key(r.value)
    ensures r.None? ==> forall p :: key != Key(p)
  {
    if key == "aws" then Some(AWS)
    else if key == "gcp" then Some(GCP)
    else if key == "azure" then Some(AZURE)
    else None
  }

  /**
   * parse: a missing setting means AWS; otherwise the trimmed, lower-cased text must be
   * one of the keys. The error message quotes the input as given.
   */
  function Parse(s: Option<string>): (r: Result<Provider, Error>)
    ensures s.None? ==> r == Ok(AWS)
    ensures s.Some? && r.Ok? ==> ToLower(Trim(s.value)) == Key(r.value)
    ensures s.Some? && r.Err? ==> forall p :: ToLower(Trim(s.value)) != Key(p)
    ensures r.Err? ==> s.Some? && r.error == IllegalArgument(UNKNOWN_PROVIDER + s.value)
  {
    if s.None? then Ok(AWS)
    else match OfKey(ToLower(Trim(s.value)))
      case Some(p) => Ok(p)
      case None => Err(IllegalArgument(UNKNOWN_PROVIDER + s.value))
  }

  /** Every provider's own name parses back to it. */
  lemma ParseName(p: Provider)
    ensures Parse(Some(Name(p))) == Ok(p)
  {
    var n := Name(p);
    assert TrimStart(n) == n && TrimEnd(n) == n;
    KeyIsLowerName(p);
  }

  /** Trimming never removes a letter, so it commutes with lower-casing. */
  lemma {:induction false} TrimStartLower(s: string)
    ensures TrimStart(ToLower(s)) == ToLower(TrimStart(s))
  {
    if |s| > 0 {
      assert ToLower(s)[1..] == ToLower(s[1..]);
      if Trimmable(s[0]) {
        TrimStartLower(s[1..]);
      }
    }
  }

  lemma {:induction false} TrimEndLower(s: string)
    ensures TrimEnd(ToLower(s)) == ToLower(TrimEnd(s))
  {
    if |s| > 0 {
      assert ToLower(s)[..|s| - 1] == ToLower(s[..|s| - 1]);
      if Trimmable(s[|s| - 1]) {
        TrimEndLower(s[..|s| - 1]);
      }
    }
  }

  lemma TrimLower(s: string)
    ensures Trim(ToLower(s)) == ToLower(Trim(s))
  {
    TrimStartLower(s);
    TrimEndLower(TrimStart(s));
  }

  /** Only the trimmed, lower-cased setting decides the outcome. */
  lemma SameKeySameChoice(s: string, t: string)
    requires ToLower(Trim(s)) == ToLower(Trim(t))
    ensures Parse(Some(s)).Ok? <==> Parse(Some(t)).Ok?
    ensures Parse(Some(s)).Ok? ==> Parse(Some(s)).value == Parse(Some(t)).value
  {
  }

  /** Two spellings that differ only in letter case select the same provider. */
  lemma ParseIgnoresCase(s: string, t: string)
    requires ToLower(s) == ToLower(t)
    ensures Parse(Some(s)).Ok? <==> Parse(Some(t)).Ok?
    ensures Parse(Some(s)).Ok? ==> Parse(Some(s)).value == Parse(Some(t)).value
  {
    TrimLower(s);
    TrimLower(t);
    SameKeySameChoice(s, t);
  }

  /** Leading and trailing characters up to U+0020 do not change the choice. */
  lemma ParseIgnoresPadding(p: string, s: string, q: string)
    requires AllTrimmable(p) && AllTrimmable(q)
    ensures Parse(Some(p + s + q)).Ok? <==> Parse(Some(s)).Ok?
    ensures Parse(Some(s)).Ok? ==> Parse(Some(p + s + q)).value == Parse(Some(s)).value
  {
    TrimPadded(p, s, q);
    SameKeySameChoice(p + s + q, s);
  }

  /** An empty or all-blank setting is not a default: it is rejected. */
  lemma ParseBlankFails(s: string)
    requires AllTrimmable(s)
    ensures Parse(Some(s)) == Err(IllegalArgument(UNKNOWN_PROVIDER + s))
  {
    TrimStartOfTrimmable(s);
  }
}
