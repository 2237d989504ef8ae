/** Option lookup within one command's own option list: exact matching,
    first declared match wins, no prefix matching. */
module Lookup {
  import opened Maybe
  import opened OptionType
  import opened Entities

  /** Index of the first option satisfying `p`. */
  function FirstMatch(opts: seq<Opt>, p: Opt -> bool): (r: Option<nat>)
    ensures r.Some? ==> r.value < |opts| && p(opts[r.value])
    ensures r.Some? ==> forall j :: 0 <= j < r.value ==> !p(opts[j])
    ensures r.None? ==> forall j :: 0 <= j < |opts| ==> !p(opts[j])
  {
    if |opts| == 0 then None
    else if p(opts[0]) then Some(0)
    else match FirstMatch(opts[1..], p)
      case None => None
      case Some(j) => Some(j + 1)
  }

  /** First option whose type has any of the bits of `t`. */
  function FindOptByType(opts: seq<Opt>, t: Flags): (r: Option<nat>)
    ensures r.Some? ==> r.value < |opts| && Has(opts[r.value].kind, t)
    ensures r.Some? ==> forall j :: 0 <= j < r.value ==> !Has(opts[j].kind, t)
    ensures r.None? ==> forall j :: 0 <= j < |opts| ==> !Has(opts[j].kind, t)
  {
    FirstMatch(opts, (o: Opt) => Has(o.kind, t))
  }

  /** Lookup by name; a missing name (NULL) selects the default option. */
  function FindOptByName(opts: seq<Opt>, name: Option<string>): (r: Option<nat>)
    ensures name.None? ==> r == FindOptByType(opts, PDefault)
    ensures name.Some? && r.Some? ==> r.value < |opts| && opts[r.value].name == name.value
    ensures name.Some? && r.Some? ==> forall j :: 0 <= j < r.value ==> opts[j].name != name.value
    ensures name.Some? && r.None? ==> forall j :: 0 <= j < |opts| ==> opts[j].name != name.value
  {
    match name
    case None => FindOptByType(opts, PDefault)
    case Some(n) => FirstMatch(opts, (o: Opt) => o.name == n)
  }

  /** Option `o` answers to `name`; no name asks for the default option. */
  predicate Answers(o: Opt, name: Option<string>) {
    if name.Some? then o.name == name.value else Has(o.kind, PDefault)
  }

  /** Option `k` is the first that answers to `name`. */
  ghost predicate FirstAnswering(opts: seq<Opt>, name: Option<string>, k: nat) {
    k < |opts| && Answers(opts[k], name) && forall j :: 0 <= j < k ==> !Answers(opts[j], name)
  }

  /** The lookup by name finds the first option answering to the name, and
      nothing exactly when no option answers. */
  lemma NameLookupIsFirst(opts: seq<Opt>, name: Option<string>)
    ensures forall k: nat :: FirstAnswering(opts, name, k) ==> FindOptByName(opts, name) == Some(k)
    ensures FindOptByName(opts, name).None? <==> forall j :: 0 <= j < |opts| ==> !Answers(opts[j], name)
  {
    var r := FindOptByName(opts, name);
    forall k: nat | FirstAnswering(opts, name, k)
      ensures r == Some(k)
    {
      assert Answers(opts[k], name);
      if r.Some? {
        assert Answers(opts[r.value], name);
      }
    }
  }

  predicate IsLongToken(t: string) {
    |t| >= 2 && t[..2] == "--"
  }

  /** Which option a token designates, independently of any search order:
      no token means the default option, a "--" prefix the long form, a "-"
      prefix the declared short switch, anything else the name. */
  predicate Designates(o: Opt, tok: Option<string>) {
    match tok
    case None => Has(o.kind, PDefault)
    case Some(t) =>
      if IsLongToken(t) then o.longopt == t
      else if IsOptToken(t) then o.shortopt == Some(t)
      else o.name == t
  }

  /** Lookup by token, dispatching on the token's shape. */
  function FindOpt(opts: seq<Opt>, tok: Option<string>): (r: Option<nat>)
    ensures r.Some? ==> r.value < |opts| && Designates(opts[r.value], tok)
    ensures r.Some? ==> forall j :: 0 <= j < r.value ==> !Designates(opts[j], tok)
    ensures r.None? ==> forall j :: 0 <= j < |opts| ==> !Designates(opts[j], tok)
  {
    match tok
    case None => FirstMatch(opts, (o: Opt) => Has(o.kind, PDefault))
    case Some(t) =>
      if IsLongToken(t) then FirstMatch(opts, (o: Opt) => o.longopt == t)
      else if IsOptToken(t) then FirstMatch(opts, (o: Opt) => o.shortopt.Some? && o.shortopt.value == t)
      else FindOptByName(opts, tok)
  }

  /** A found option matches the token exactly: there is no prefix or
      abbreviation matching, and an option without a short switch is never
      found through a single-dash token. */
  lemma FoundIsExact(opts: seq<Opt>, t: string)
    requires FindOpt(opts, Some(t)).Some?
    ensures var o := opts[FindOpt(opts, Some(t)).value];
      t == o.longopt || o.shortopt == Some(t) || t == o.name
    ensures var o := opts[FindOpt(opts, Some(t)).value];
      IsOptToken(t) && !IsLongToken(t) ==> o.shortopt.Some?
  {
  }

  /** Appending options never changes the result of a successful lookup:
      the first declared match wins. */
  lemma {:induction false} FirstDeclaredWins(opts: seq<Opt>, more: seq<Opt>, tok: Option<string>)
    requires FindOpt(opts, tok).Some?
    ensures FindOpt(opts + more, tok) == FindOpt(opts, tok)
  {
    var k := FindOpt(opts, tok).value;
    var r := FindOpt(opts + more, tok);
    assert (opts + more)[k] == opts[k];
    assert forall j :: 0 <= j < k ==> (opts + more)[j] == opts[j];
  }
}
