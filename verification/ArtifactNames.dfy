/** Artifact names: the portable base-name grammar, case folding, and the length
    limit of a quarantine directory name. */
module ArtifactNames {

  const TX_PREFIX := ".machinery-artifact-"
  const MAX_ITEMS := 100_000

  function LowerChar(c: char): (r: char) {
    if 'A' <= c <= 'Z' then (c as int + 32) as char else c
  }

  function UpperChar(c: char): (r: char) {
    if 'a' <= c <= 'z' then (c as int - 32) as char else c
  }

  function Lower(s: string): (r: string) {
    seq(|s|, i requires 0 <= i < |s| => LowerChar(s[i]))
  }

  function Upper(s: string): (r: string) {
    seq(|s|, i requires 0 <= i < |s| => UpperChar(s[i]))
  }

  /** One letter in both cases. */
  predicate CasePair(upper: char, lower: char) {
    'A' <= upper <= 'Z' && lower as int == upper as int + 32
  }

  /** Folding identifies exactly the names that differ in ASCII case only. */
  lemma LowerExact(s: string, t: string)
    ensures Lower(s) == Lower(t) <==>
            |s| == |t| && forall i :: 0 <= i < |s| ==> s[i] == t[i] || CasePair(s[i], t[i]) || CasePair(t[i], s[i])
  {
    if Lower(s) == Lower(t) {
      assert |Lower(s)| == |Lower(t)|;
      forall i | 0 <= i < |s| ensures s[i] == t[i] || CasePair(s[i], t[i]) || CasePair(t[i], s[i]) {
        assert Lower(s)[i] == Lower(t)[i];
      }
    } else if |s| == |t| {
      var i :| 0 <= i < |s| && Lower(s)[i] != Lower(t)[i];
      assert LowerChar(s[i]) != LowerChar(t[i]);
    }
  }

  /** The part of a name before its first dot. */
  function Stem(s: string): (r: string) {
    if s == "" || s[0] == '.' then "" else [s[0]] + Stem(s[1..])
  }

  const DEVICES: set<string> := {
    "CON", "PRN", "AUX", "NUL", "CLOCK$",
    "COM1", "COM2", "COM3", "COM4", "COM5", "COM6", "COM7", "COM8", "COM9",
    "LPT1", "LPT2", "LPT3", "LPT4", "LPT5", "LPT6", "LPT7", "LPT8", "LPT9"}

  lemma DevicesStart(s: string)
    ensures s in DEVICES ==> |s| >= 3 && (s[0] == 'A' ==> s[1] == 'U')
  {
  }

  predicate PortableChar(c: char) {
    'a' <= c <= 'z' || 'A' <= c <= 'Z' || '0' <= c <= '9' || c == '.' || c == '_' || c == '-'
  }

  predicate PortableBase(s: string) {
    && s != "" && s != "." && s != ".." && s[|s| - 1] != '.'
    && (forall i :: 0 <= i < |s| ==> PortableChar(s[i]))
    && Upper(Stem(s)) !in DEVICES
  }

  /** The stem ends at the first dot, if there is one. */
  lemma {:induction false} StemExact(stem: string, rest: string)
    requires '.' !in stem
    ensures Stem(stem) == stem && Stem(stem + "." + rest) == stem
  {
    if stem != "" {
      StemExact(stem[1..], rest);
      assert (stem + "." + rest)[1..] == stem[1..] + "." + rest;
      assert [stem[0]] + stem[1..] == stem;
    }
  }

  /** A name is refused for a device exactly when what precedes its first dot is
      one in any case, whatever follows. */
  lemma DeviceRefused(stem: string, rest: string)
    requires '.' !in stem && stem != "" && forall i :: 0 <= i < |stem| ==> PortableChar(stem[i])
    requires rest != "" && rest[|rest| - 1] != '.' && forall i :: 0 <= i < |rest| ==> PortableChar(rest[i])
    ensures PortableBase(stem) <==> Upper(stem) !in DEVICES
    ensures PortableBase(stem + "." + rest) <==> Upper(stem) !in DEVICES
  {
    StemExact(stem, rest);
    assert stem[|stem| - 1] != '.' by { assert stem[|stem| - 1] in stem; }
    var s := stem + "." + rest;
    assert s[|s| - 1] == rest[|rest| - 1] && s != "." && s != "..";
    assert s != ".." by { assert |s| >= 3; }
    forall i | 0 <= i < |s| ensures PortableChar(s[i]) {
      assert i > |stem| ==> s[i] == rest[i - |stem| - 1];
    }
    assert '.' in "." && stem != "." && stem != "..";
  }

  predicate ValidTarget(s: string) {
    PortableBase(s) && !(TX_PREFIX <= Lower(s))
  }

  // ----------------------------------------------- quarantine directory names

  const QUARANTINE_NAME_MAX := 240
  const NONCE_HEX := 32
  const MARKER := 10

  /** Length of the unpadded base-64 form of n bytes. */
  function EncodedLength(n: nat): (r: nat) {
    n / 3 * 4 + (n % 3 * 8 + 5) / 6
  }

  /** A quarantine directory is named prefix, nonce, marker, encoded source. */
  predicate QuarantineNameFits(prefixLength: nat, sourceLength: nat) {
    prefixLength + NONCE_HEX + MARKER + EncodedLength(sourceLength) <= QUARANTINE_NAME_MAX
  }

  const OBJECT_PREFIX_LENGTH := 38

  /** The longest target an object quarantine can name has 120 bytes. */
  lemma ObjectQuarantineLimit(n: nat)
    ensures QuarantineNameFits(OBJECT_PREFIX_LENGTH, n) <==> n <= 120
  {
    if n <= 120 {
      assert n / 3 <= 40;
    } else {
      assert n / 3 >= 40;
    }
  }
}
