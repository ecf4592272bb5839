/** Path handling: the quote stripping of `normalize` (index.js:13-16) and
    the `path.join` / `path.basename` the tool applies to normalised paths,
    with POSIX separators. */
module Paths {
  import opened Common

  predicate IsQuote(c: char) {
    c == '"' || c == '\''
  }

  /** `p.replace(/["']/g, "")`: every quote character removed, the rest kept
      in order. */
  function StripQuotes(s: string): (r: string)
    ensures |r| <= |s|
    ensures forall k :: 0 <= k < |r| ==> !IsQuote(r[k])
    ensures (forall k :: 0 <= k < |s| ==> !IsQuote(s[k])) ==> r == s
  {
    if s == [] then []
    else if IsQuote(s[0]) then StripQuotes(s[1..])
    else [s[0]] + StripQuotes(s[1..])
  }

  /** Stripping distributes over concatenation, so it removes exactly the
      quote characters, wherever they stand. */
  lemma {:induction false} StripQuotesAppend(a: string, b: string)
    ensures StripQuotes(a + b) == StripQuotes(a) + StripQuotes(b)
    decreases |a|
  {
    if a == [] {
      assert a + b == b;
    } else {
      assert (a + b)[0] == a[0] && (a + b)[1..] == a[1..] + b;
      StripQuotesAppend(a[1..], b);
    }
  }

  /** Stripping twice is stripping once. */
  lemma StripQuotesIdempotent(s: string)
    ensures StripQuotes(StripQuotes(s)) == StripQuotes(s)
  {
  }

  /** `normalize(p)`: an absent or empty argument gives `null`; otherwise the
      argument with its quotes removed. */
  function Normalize(p: Option<string>): (r: Option<string>)
    ensures r.None? <==> (p.None? || p.value == "")
    ensures r.Some? ==> r.value == StripQuotes(p.value)
  {
    if p.None? || p.value == "" then None else Some(StripQuotes(p.value))
  }

  lemma NormalizeExamples()
    ensures Normalize(Some("\"a b\"")) == Some("a b")
    ensures Normalize(Some("")) == None && Normalize(None) == None
  {
    var q, w := "\"", "a b";
    assert StripQuotes(q) == [];
    assert StripQuotes(w) == w;
    StripQuotesAppend(q, w);
    StripQuotesAppend(q + w, q);
    assert q + w + q == "\"a b\"";
  }

  /** `path.join(dir, name)`. */
  function Join(dir: string, name: string): string {
    dir + "/" + name
  }

  /** The position just after the last separator of `p` (0 if it has none). */
  function BaseStart(p: string): (i: nat)
    ensures i <= |p| && (i > 0 ==> p[i - 1] == '/')
    ensures forall k :: i <= k < |p| ==> p[k] != '/'
  {
    if p == [] || p[|p| - 1] == '/' then |p| else BaseStart(p[..|p| - 1])
  }

  /** `p` without the separators it ends with. */
  function TrimTrailingSeparators(p: string): (q: string)
    ensures |q| <= |p| && q == p[..|q|]
    ensures q == [] || q[|q| - 1] != '/'
    ensures forall k :: |q| <= k < |p| ==> p[k] == '/'
    decreases |p|
  {
    if p != [] && p[|p| - 1] == '/' then TrimTrailingSeparators(p[..|p| - 1]) else p
  }

  /** `path.basename(p)`: what follows the last separator, once the
      separators the path ends with are ignored. It is empty only for a path
      made of separators alone. */
  function Basename(p: string): (b: string)
    ensures forall k :: 0 <= k < |b| ==> b[k] != '/'
    ensures b == [] <==> forall k :: 0 <= k < |p| ==> p[k] == '/'
  {
    var q := TrimTrailingSeparators(p);
    assert q != [] ==> BaseStart(q) < |q|;
    assert q != [] ==> p[|q| - 1] == q[|q| - 1];
    q[BaseStart(q)..]
  }

  /** The base name is the part of the path after its last separator, once
      the trailing separators are set aside. */
  lemma BasenameSuffix(p: string)
    ensures var q := TrimTrailingSeparators(p);
            && |Basename(p)| <= |q| && q[|q| - |Basename(p)|..] == Basename(p)
            && (|Basename(p)| < |q| ==> q[|q| - |Basename(p)| - 1] == '/')
  {
    var q := TrimTrailingSeparators(p);
    var i := BaseStart(q);
    assert Basename(p) == q[i..];
    assert |q| - |Basename(p)| == i;
  }

  /** A separator at the end changes nothing: `MyFolder` and `MyFolder/`
      have the same base name. */
  lemma BasenameIgnoresTrailing(p: string)
    ensures Basename(p + "/") == Basename(p)
  {
    assert (p + "/")[..|p|] == p;
  }

  /** A name without separators is its own base name. */
  lemma BasenameOfName(name: string)
    requires forall k :: 0 <= k < |name| ==> name[k] != '/'
    ensures Basename(name) == name
  {
    assert TrimTrailingSeparators(name) == name;
    assert BaseStart(name) == 0;
  }

  /** The base name of a joined path is the name joined on, when that name
      is not empty and holds no separator. */
  lemma BasenameOfJoin(dir: string, name: string)
    requires name != [] && forall k :: 0 <= k < |name| ==> name[k] != '/'
    ensures Basename(Join(dir, name)) == name
  {
    var p := Join(dir, name);
    assert p[|p| - 1] == name[|name| - 1];
    assert TrimTrailingSeparators(p) == p;
    var i := BaseStart(p);
    assert p[|dir|] == '/';
    assert forall k :: |dir| < k < |p| ==> p[k] == name[k - |dir| - 1];
    assert i >= |dir| + 1;
    assert p[|dir| + 1..] == name;
  }
}
