/** The upload handlers turn a client-supplied file name into a name that is
    safe to store on disk: `re.sub(r"[^A-Za-z0-9_.-]", "_", name)` replaces
    every character outside the class `A-Z a-z 0-9 _ . -` by an underscore,
    one character at a time, and the stored name is a time stamp, an
    underscore and that safe name. */
module FileNames {

  /** The characters the class `[A-Za-z0-9_.-]` matches (ranges by code
      point, `.` and a trailing `-` taken literally). */
  predicate IsSafeChar(c: char) {
    ('A' <= c <= 'Z') || ('a' <= c <= 'z') || ('0' <= c <= '9') || c == '_' || c == '.' || c == '-'
  }

  predicate IsSafeName(s: string) {
    forall i :: 0 <= i < |s| ==> IsSafeChar(s[i])
  }

  /** The substitution: same length, safe characters kept in place,
      everything else turned into `_`. */
  function Sanitize(name: string): (safe: string)
    ensures |safe| == |name|
    ensures IsSafeName(safe)
    ensures forall i :: 0 <= i < |name| && IsSafeChar(name[i]) ==> safe[i] == name[i]
    ensures forall i :: 0 <= i < |name| && !IsSafeChar(name[i]) ==> safe[i] == '_'
  {
    if name == [] then []
    else [if IsSafeChar(name[0]) then name[0] else '_'] + Sanitize(name[1..])
  }

  /** A name that is already safe comes back unchanged. */
  lemma SanitizeKeepsSafeName(name: string)
    requires IsSafeName(name)
    ensures Sanitize(name) == name
  {
    var safe := Sanitize(name);
    assert forall i :: 0 <= i < |name| ==> safe[i] == name[i];
  }

  /** Sanitising twice is sanitising once. */
  lemma SanitizeIdempotent(name: string)
    ensures Sanitize(Sanitize(name)) == Sanitize(name)
  {
    SanitizeKeepsSafeName(Sanitize(name));
  }

  /** The stored name `f"{stamp}_{safe}"`; `stamp` stands for the formatted
      clock reading `%Y%m%d_%H%M%S`, passed in because the model has no
      clock. */
  function StoredName(stamp: string, name: string): (stored: string)
    ensures |stored| == |stamp| + 1 + |name|
    ensures stored[..|stamp|] == stamp && stored[|stamp|] == '_'
    ensures stored[|stamp| + 1..] == Sanitize(name)
    ensures IsSafeName(stamp) ==> IsSafeName(stored)
    ensures IsSafeName(stamp) ==> '/' !in stored && '\\' !in stored
  {
    stamp + "_" + Sanitize(name)
  }
}
