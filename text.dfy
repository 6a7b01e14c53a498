/** The string operations the bot formats its replies with. */
module Text {

  /** `sep.join(parts)`. */
  function Join(parts: seq<string>, sep: string): (r: string)
    ensures parts == [] ==> r == ""
    ensures |parts| == 1 ==> r == parts[0]
    decreases |parts|
  {
    if parts == [] then ""
    else if |parts| == 1 then parts[0]
    else Join(parts[..|parts| - 1], sep) + sep + parts[|parts| - 1]
  }

  /** `s.removesuffix(suffix)`: drops one trailing copy of a non-empty suffix. */
  function RemoveSuffix(s: string, suffix: string): (r: string)
    ensures suffix != [] && |suffix| <= |s| && s[|s| - |suffix|..] == suffix ==> r + suffix == s
    ensures !(suffix != [] && |suffix| <= |s| && s[|s| - |suffix|..] == suffix) ==> r == s
  {
    if suffix != [] && |suffix| <= |s| && s[|s| - |suffix|..] == suffix then s[..|s| - |suffix|] else s
  }

  /** Each part followed by `sep`: what `acc += f"{part}{sep}"` in a loop builds. */
  function Terminated(parts: seq<string>, sep: string): (r: string)
    decreases |parts|
  {
    if parts == [] then "" else Terminated(parts[..|parts| - 1], sep) + parts[|parts| - 1] + sep
  }

  /** Terminating every part and then removing the last separator is joining. */
  lemma {:induction false} TerminatedIsJoin(parts: seq<string>, sep: string)
    requires parts != []
    ensures Terminated(parts, sep) == Join(parts, sep) + sep
    decreases |parts|
  {
    if |parts| > 1 {
      TerminatedIsJoin(parts[..|parts| - 1], sep);
    }
  }

  /** `(prefix + terminated parts).removesuffix(sep)` is `prefix + sep.join(parts)`. */
  lemma TrimmedIsJoin(prefix: string, parts: seq<string>, sep: string)
    requires parts != [] && sep != []
    ensures RemoveSuffix(prefix + Terminated(parts, sep), sep) == prefix + Join(parts, sep)
  {
    TerminatedIsJoin(parts, sep);
    var s := prefix + Terminated(parts, sep);
    assert s == (prefix + Join(parts, sep)) + sep;
    assert s[|s| - |sep|..] == sep;
    assert s[..|s| - |sep|] == prefix + Join(parts, sep);
  }
}
