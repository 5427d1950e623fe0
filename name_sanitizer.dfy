/** `sanitizeFileName`: a file-name-safe form of the profile title. */
module NameSanitizer {
  import opened Strings

  /** The characters `[a-zA-Z0-9._-]` that a file name keeps. */
  predicate IsSafe(c: char) {
    ('a' <= c <= 'z') || ('A' <= c <= 'Z') || ('0' <= c <= '9') || c == '.' || c == '_' || c == '-'
  }

  /** `replace(/[^a-zA-Z0-9._-]/g, " ")`: every other character becomes a space. */
  function Mask(s: string): string {
    seq(|s|, k requires 0 <= k < |s| => if IsSafe(s[k]) then s[k] else ' ')
  }

  /**
   * `sanitizeFileName(title)`: the masked title with only the spaces at its two
   * ends cut off. What is left holds only safe characters and spaces, has a safe
   * character at each end, and is never longer than the title.
   */
  function SanitizeFileName(title: string): (name: string)
    ensures exists i, j ::
              && 0 <= i <= j <= |title|
              && AllSpace(Mask(title)[..i]) && name == Mask(title)[i..j] && AllSpace(Mask(title)[j..])
    ensures forall k :: 0 <= k < |name| ==> IsSafe(name[k]) || name[k] == ' '
    ensures name == [] || (IsSafe(name[0]) && IsSafe(name[|name| - 1]))
    ensures |name| <= |title|
  {
    TrimKeepsSafeOrSpace(Mask(title));
    Trim(Mask(title))
  }

  /** Trimming text of safe characters and spaces leaves safe characters and spaces, safe at both ends. */
  lemma TrimKeepsSafeOrSpace(m: string)
    requires forall k :: 0 <= k < |m| ==> IsSafe(m[k]) || m[k] == ' '
    ensures forall k :: 0 <= k < |Trim(m)| ==> IsSafe(Trim(m)[k]) || Trim(m)[k] == ' '
    ensures Trim(m) == [] || (IsSafe(Trim(m)[0]) && IsSafe(Trim(m)[|Trim(m)| - 1]))
  {
    var r := Trim(m);
    var i, j :| 0 <= i <= j <= |m| && r == m[i..j];
    assert forall k :: 0 <= k < |r| ==> r[k] == m[i + k];
  }

  /** Masking works character by character, so it distributes over joined text. */
  lemma MaskAppend(a: string, b: string)
    ensures Mask(a + b) == Mask(a) + Mask(b)
  {
  }

  /**
   * Unsafe characters and spaces around a name with safe ends are cut off, and
   * every unsafe character inside it becomes a space in its place.
   */
  lemma SanitizePadded(a: string, w: string, b: string)
    requires forall k :: 0 <= k < |a| ==> !IsSafe(a[k]) || a[k] == ' '
    requires forall k :: 0 <= k < |b| ==> !IsSafe(b[k]) || b[k] == ' '
    requires w == [] || (IsSafe(w[0]) && IsSafe(w[|w| - 1]))
    ensures SanitizeFileName(a + w + b) == Mask(w)
  {
    MaskAppend(a + w, b);
    MaskAppend(a, w);
    assert AllSpace(Mask(a)) && AllSpace(Mask(b));
    TrimPadded(Mask(a), Mask(w), Mask(b));
  }

  /** A slash inside the title becomes a space: "a/b" gives "a b". */
  lemma SlashBecomesSpace()
    ensures SanitizeFileName("a/b") == "a b"
  {
    assert "a/b" == [] + "a/b" + [];
    SanitizePadded([], "a/b", []);
    assert Mask("a/b") == "a b";
  }

  /** A name made of safe characters and inner spaces is left as it is. */
  lemma SafeNameUnchanged(name: string)
    requires forall k :: 0 <= k < |name| ==> IsSafe(name[k]) || name[k] == ' '
    requires name == [] || (IsSafe(name[0]) && IsSafe(name[|name| - 1]))
    ensures SanitizeFileName(name) == name
  {
    assert Mask(name) == name;
    TrimmedIsFixed(name);
  }

  /** Sanitizing twice gives what sanitizing once gave. */
  lemma SanitizeIdempotent(title: string)
    ensures SanitizeFileName(SanitizeFileName(title)) == SanitizeFileName(title)
  {
    SafeNameUnchanged(SanitizeFileName(title));
  }

  /** A title with no safe character at all gives the empty name. */
  lemma UnsafeTitleGivesEmptyName(title: string)
    requires forall k :: 0 <= k < |title| ==> !IsSafe(title[k])
    ensures SanitizeFileName(title) == ""
  {
    assert AllSpace(Mask(title));
  }

  /** The title "Classic Italian" is already a safe name. */
  lemma ClassicItalianName()
    ensures SanitizeFileName("Classic Italian") == "Classic Italian"
  {
    SafeNameUnchanged("Classic Italian");
  }
}
