/** File-name sanitising for collection names. */
module Utils {

  /** The characters a file name may not contain here. */
  const UnsafeCharacters: seq<char> := [' ', '/', '\\', ':', '*', '?', '"', '<', '>', '|']

  /** A character of the safe name: an unsafe character becomes an underscore. */
  function SafeChar(c: char): char
  {
    if c in UnsafeCharacters then '_' else c
  }

  /** The safe file name, character by character. */
  function SafeFilename(name: string): (r: string)
    ensures |r| == |name|
    ensures forall i :: 0 <= i < |name| ==> r[i] == SafeChar(name[i])
  {
    seq(|name|, i requires 0 <= i < |name| => SafeChar(name[i]))
  }

  /** `str.replace` of one character by another. */
  function Replace(s: string, target: char, replacement: char): (r: string)
    ensures |r| == |s|
  {
    seq(|s|, i requires 0 <= i < |s| => if s[i] == target then replacement else s[i])
  }

  /** `make_safe_filename`: replaces each unsafe character in turn by an
      underscore. The result is the safe file name: same length, every unsafe
      character an underscore, every other character kept. */
  method MakeSafeFilename(collectionName: string) returns (safe: string)
    ensures safe == SafeFilename(collectionName)
    ensures |safe| == |collectionName|
    ensures forall i :: 0 <= i < |safe| ==> safe[i] !in UnsafeCharacters
    ensures forall i :: 0 <= i < |collectionName| && collectionName[i] !in UnsafeCharacters ==> safe[i] == collectionName[i]
  {
    safe := collectionName;
    for j := 0 to |UnsafeCharacters|
      invariant |safe| == |collectionName|
      invariant forall i :: 0 <= i < |safe| ==>
        safe[i] == (if collectionName[i] in UnsafeCharacters[..j] then '_' else collectionName[i])
    {
      safe := Replace(safe, UnsafeCharacters[j], '_');
      assert forall i :: 0 <= i < |safe| ==>
        (collectionName[i] in UnsafeCharacters[..j + 1] <==>
          collectionName[i] in UnsafeCharacters[..j] || collectionName[i] == UnsafeCharacters[j]);
    }
    assert UnsafeCharacters[..|UnsafeCharacters|] == UnsafeCharacters;
    SafeFilenameIsSafe(collectionName);
  }

  /** The safe name has no unsafe character, and keeps every safe one in place. */
  lemma SafeFilenameIsSafe(name: string)
    ensures forall i :: 0 <= i < |name| ==> SafeFilename(name)[i] !in UnsafeCharacters
    ensures forall i :: 0 <= i < |name| && name[i] !in UnsafeCharacters ==> SafeFilename(name)[i] == name[i]
  {
    assert '_' !in UnsafeCharacters;
  }

  /** Sanitising a safe name changes nothing, so sanitising is idempotent. */
  lemma SafeFilenameIdempotent(name: string)
    ensures SafeFilename(SafeFilename(name)) == SafeFilename(name)
  {
    SafeFilenameIsSafe(name);
    SafeFilenameFixpoint(SafeFilename(name));
  }

  /** A name is left unchanged exactly when it has no unsafe character; the
      empty name is one of them. */
  lemma SafeFilenameFixpoint(name: string)
    ensures SafeFilename(name) == name <==> forall i :: 0 <= i < |name| ==> name[i] !in UnsafeCharacters
    ensures SafeFilename([]) == []
  {
    assert '_' in UnsafeCharacters ==> false by {
      assert forall i :: 0 <= i < |UnsafeCharacters| ==> UnsafeCharacters[i] != '_';
    }
    if SafeFilename(name) == name {
      forall i | 0 <= i < |name| ensures name[i] !in UnsafeCharacters {
        assert SafeFilename(name)[i] == name[i];
      }
    }
  }
}
