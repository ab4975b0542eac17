/** Address-bar text normalisation (SilkBrowser.navigate_to_url). URLs are opaque strings. */
module Address {

  const HttpPrefix: string := "http://"
  const HttpsPrefix: string := "https://"

  /** Prefix test with the meaning of Python's str.startswith. */
  predicate StartsWith(s: string, prefix: string) {
    |prefix| <= |s| && s[..|prefix|] == prefix
  }

  /** The text already names one of the two schemes the address bar recognises. */
  predicate HasWebScheme(s: string) {
    StartsWith(s, HttpPrefix) || StartsWith(s, HttpsPrefix)
  }

  /** The URL the address bar loads for `text`: `http://` is prepended unless a scheme is present. */
  function Normalize(text: string): (url: string)
    ensures HasWebScheme(url)
    ensures HasWebScheme(text) ==> url == text
    ensures !HasWebScheme(text) ==> url == HttpPrefix + text
    ensures |text| <= |url| && url[|url| - |text|..] == text
  {
    if !StartsWith(text, HttpPrefix) && !StartsWith(text, HttpsPrefix) then
      assert StartsWith(HttpPrefix + text, HttpPrefix) by {
        assert (HttpPrefix + text)[..|HttpPrefix|] == HttpPrefix;
      }
      HttpPrefix + text
    else
      text
  }

  /** Normalisation leaves the text alone exactly when it already has a scheme. */
  lemma NormalizeFixedPoints(text: string)
    ensures Normalize(text) == text <==> HasWebScheme(text)
  {
  }

  /** Normalising a second time changes nothing. */
  lemma NormalizeIdempotent(text: string)
    ensures Normalize(Normalize(text)) == Normalize(text)
  {
  }

  /** Two sample inputs: a bare host and an https URL. */
  lemma NormalizeExamples()
    ensures Normalize("example.com") == "http://example.com"
    ensures Normalize("https://x.com") == "https://x.com"
  {
    assert !StartsWith("example.com", HttpPrefix) by {
      assert "example.com"[..|HttpPrefix|][0] == 'e';
    }
    assert !StartsWith("example.com", HttpsPrefix) by {
      assert "example.com"[..|HttpsPrefix|][0] == 'e';
    }
    assert StartsWith("https://x.com", HttpsPrefix) by {
      assert "https://x.com"[..|HttpsPrefix|] == HttpsPrefix;
    }
  }
}
