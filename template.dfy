/** Filling the script template: `script.replace("{json}", &json)`
    (src/lib.rs:53). Rust's `str::replace` scans the template left to right
    and replaces every non-overlapping occurrence of the pattern; the text it
    inserts is never scanned again. */
module Template {

  const Placeholder: string := "{json}"

  /** The template with every placeholder replaced by `payload`. */
  function Substitute(template: string, payload: string): string
    decreases |template|
  {
    if |template| < |Placeholder| then template
    else if template[..|Placeholder|] == Placeholder then
      payload + Substitute(template[|Placeholder|..], payload)
    else
      [template[0]] + Substitute(template[1..], payload)
  }

  /** A placeholder starts at position `i` of `s`. */
  predicate OccursAt(s: string, i: nat)
  {
    i + |Placeholder| <= |s| && s[i..i + |Placeholder|] == Placeholder
  }

  /** `s` contains no placeholder. */
  predicate Free(s: string)
  {
    forall i: nat :: i <= |s| ==> !OccursAt(s, i)
  }

  /** The parts joined, with `sep` between each two. */
  function Join(parts: seq<string>, sep: string): string
    requires parts != []
  {
    if |parts| == 1 then parts[0] else parts[0] + sep + Join(parts[1..], sep)
  }

  /** A template without a placeholder comes back unchanged. */
  lemma {:induction false} SubstituteFree(s: string, payload: string)
    requires Free(s)
    ensures Substitute(s, payload) == s
    decreases |s|
  {
    if |s| >= |Placeholder| {
      assert !OccursAt(s, 0);
      FreeTail(s);
      SubstituteFree(s[1..], payload);
    }
  }

  lemma FreeTail(s: string)
    requires Free(s) && s != []
    ensures Free(s[1..])
  {
    forall i: nat | i <= |s[1..]|
      ensures !OccursAt(s[1..], i)
    {
      assert !OccursAt(s, i + 1);
      if i + |Placeholder| <= |s[1..]| {
        assert s[1..][i..i + |Placeholder|] == s[i + 1..i + 1 + |Placeholder|];
      }
    }
  }

  /** The placeholder's first character does not occur in it again. */
  lemma PlaceholderOpensOnce(j: int)
    requires 0 < j < |Placeholder|
    ensures Placeholder[j] != Placeholder[0]
  {
  }

  /** The first placeholder after a placeholder-free prefix is the one the
      scan finds: the placeholder cannot begin inside the prefix and end
      inside itself, because its first character occurs in it only once. */
  lemma {:induction false} SubstituteAt(a: string, b: string, payload: string)
    requires Free(a)
    ensures Substitute(a + Placeholder + b, payload) == a + payload + Substitute(b, payload)
    decreases |a|
  {
    var s := a + Placeholder + b;
    if a == [] {
      assert s == Placeholder + b;
      assert s[..|Placeholder|] == Placeholder;
      assert s[|Placeholder|..] == b;
    } else {
      NotAtStart(a, b);
      assert s[1..] == a[1..] + Placeholder + b;
      FreeTail(a);
      SubstituteAt(a[1..], b, payload);
    }
  }

  /** A placeholder that follows a non-empty placeholder-free prefix does
      not start at position 0. */
  lemma NotAtStart(a: string, b: string)
    requires Free(a) && a != []
    ensures !OccursAt(a + Placeholder + b, 0)
  {
    var s := a + Placeholder + b;
    if |a| >= |Placeholder| {
      assert !OccursAt(a, 0);
      assert s[..|Placeholder|] == a[..|Placeholder|];
    } else {
      PlaceholderOpensOnce(|a|);
      assert s[|a|] == Placeholder[0];
      assert s[..|Placeholder|][|a|] == s[|a|];
    }
  }

  /** Substitution replaces every placeholder: a template made of
      placeholder-free parts joined by placeholders becomes the same parts
      joined by the payload, whatever the payload itself contains. */
  lemma {:induction false} SubstituteJoin(parts: seq<string>, payload: string)
    requires parts != []
    requires forall i :: 0 <= i < |parts| ==> Free(parts[i])
    ensures Substitute(Join(parts, Placeholder), payload) == Join(parts, payload)
  {
    if |parts| == 1 {
      SubstituteFree(parts[0], payload);
    } else {
      SubstituteJoin(parts[1..], payload);
      assert parts[0] + Placeholder + Join(parts[1..], Placeholder) == Join(parts, Placeholder);
      SubstituteAt(parts[0], Join(parts[1..], Placeholder), payload);
    }
  }

  /** The template cut at its placeholders, as the left-to-right scan finds
      them: placeholder-free parts that, joined by the placeholder, give the
      template back. */
  function Pieces(s: string): (parts: seq<string>)
    ensures parts != []
    ensures forall i :: 0 <= i < |parts| ==> Free(parts[i])
    ensures Join(parts, Placeholder) == s
    decreases |s|
  {
    if |s| < |Placeholder| then
      [s]
    else if s[..|Placeholder|] == Placeholder then
      var rest := Pieces(s[|Placeholder|..]);
      assert s == [] + Placeholder + s[|Placeholder|..];
      [[]] + rest
    else
      var rest := Pieces(s[1..]);
      JoinPrefix(rest, Placeholder);
      FreeCons(s, rest[0]);
      assert s == [s[0]] + s[1..];
      [[s[0]] + rest[0]] + rest[1..]
  }

  /** A placeholder-free prefix of `s[1..]` stays free with `s[0]` in front
      of it when no placeholder starts `s`. */
  lemma FreeCons(s: string, p: string)
    requires s != [] && !OccursAt(s, 0)
    requires Free(p) && |p| <= |s| - 1 && s[1..][..|p|] == p
    ensures Free([s[0]] + p)
  {
    var first := [s[0]] + p;
    forall i: nat | i <= |first|
      ensures !OccursAt(first, i)
    {
      if i == 0 {
        if |first| >= |Placeholder| {
          assert first[..|Placeholder|] == s[..|Placeholder|];
        }
      } else {
        assert !OccursAt(p, i - 1);
        if i + |Placeholder| <= |first| {
          assert first[i..i + |Placeholder|] == p[i - 1..i - 1 + |Placeholder|];
        }
      }
    }
  }

  /** A join begins with its first part. */
  lemma JoinPrefix(parts: seq<string>, sep: string)
    requires parts != []
    ensures |parts[0]| <= |Join(parts, sep)| && Join(parts, sep)[..|parts[0]|] == parts[0]
  {
  }

  /** What `Substitute` does, stated without the scan: every placeholder of
      the template, and nothing else, is replaced by the payload. */
  lemma SubstituteReplacesEvery(template: string, payload: string)
    ensures Substitute(template, payload) == Join(Pieces(template), payload)
  {
    SubstituteJoin(Pieces(template), payload);
  }
}
