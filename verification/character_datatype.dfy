/**
 Model of `CharacterDatatype.valueOf`, the UPnP `char` datatype decoder:
 a string is decoded to the character it starts with, and the empty string
 decodes to no value at all (`null` in the Java code).
 */
module CharacterDatatype {
  import opened Wrappers

  /** Decodes the wire string `s` of a UPnP `char` value. */
  function ValueOf(s: string): (r: Option<char>)
    ensures r.None? <==> |s| == 0
    ensures r.Some? ==> r.value == s[0]
  {
    if s == "" then None else Some(s[0])
  }

  /** The empty string decodes to no value. */
  lemma EmptyDecodesToNothing()
    ensures ValueOf("") == None
  {
  }

  /** Only the first character is read: whatever follows it is ignored. */
  lemma OnlyFirstCharacterMatters(s: string, t: string)
    requires |s| > 0 && |t| > 0
    requires s[0] == t[0]
    ensures ValueOf(s) == ValueOf(t)
    ensures ValueOf(s) == Some(s[0])
  {
  }

  /** Appending anything after a character does not change what it decodes to. */
  lemma SuffixIgnored(c: char, rest: string)
    ensures ValueOf([c] + rest) == Some(c)
  {
    assert ([c] + rest)[0] == c;
  }

  /** Round trip: the one-character string of `c` decodes back to `c`. */
  lemma SingletonRoundTrip(c: char)
    ensures ValueOf([c]) == Some(c)
  {
  }
}
