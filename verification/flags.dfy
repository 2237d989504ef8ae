/** The optional-value wrapper used wherever the library passes a pointer
    that may be NULL. */
module Maybe {
  datatype Option<+T> = None | Some(value: T)
}

/** Option type bits. A specification row carries either a sugar tag
    (bits 0-9) or an explicit combination of primitive flags (bits 10-16);
    registration rewrites every sugar tag into primitives. */
module OptionType {

  type Flags = bv64

  // Sugar tags.
  const Subcmd: Flags := 1 << 0
  const Switch: Flags := 1 << 1
  const Single: Flags := 1 << 2
  const Multi: Flags := 1 << 3
  const OptSingle: Flags := 1 << 4
  const OptMulti: Flags := 1 << 5
  const OptAny: Flags := 1 << 6
  const Default: Flags := 1 << 7
  const Exclusive: Flags := 1 << 8
  const Silent: Flags := 1 << 9

  // Primitive flags.
  const PNone: Flags := 1 << 10
  const POne: Flags := 1 << 11
  const PMany: Flags := 1 << 12
  const POpt: Flags := 1 << 13
  const PDefault: Flags := 1 << 14
  const PMutex: Flags := 1 << 15
  const PHidden: Flags := 1 << 16

  /** Every sugar tag, and every primitive flag, as one mask each. */
  const SugarMask: Flags := 0x3FF
  const PrimitiveMask: Flags := 0x1_FC00

  predicate Has(t: Flags, bit: Flags) {
    t & bit != 0
  }

  /** The sugar tags the conversion table rewrites. `Subcmd` is a sugar tag
      too, but it is kept as it is. */
  predicate IsSugar(t: Flags) {
    t == Switch || t == Single || t == Multi || t == OptSingle || t == OptMulti
    || t == OptAny || t == Default || t == Exclusive || t == Silent
  }

  /** Arity and role readings of a primitive combination. */
  predicate TakesValue(p: Flags) { Has(p, POne) || Has(p, PMany) }
  predicate AcceptsNoValue(p: Flags) { Has(p, PNone) }
  predicate Optional(p: Flags) { Has(p, POpt) }

  /** The conversion of a type value into primitives done when an option is
      created. */
  function ToPrimitives(t: Flags): (p: Flags)
    ensures IsSugar(t) ==> p & SugarMask == 0 && p & PrimitiveMask == p
    ensures IsSugar(t) ==> AcceptsNoValue(p) || TakesValue(p)
    ensures !IsSugar(t) ==> p == t
  {
    if t == Switch then PNone | POpt
    else if t == Single then POne
    else if t == Multi then POne | PMany
    else if t == OptSingle then POne | POpt
    else if t == OptMulti then POne | PMany | POpt
    else if t == OptAny then PNone | POne | PMany | POpt
    else if t == Default then PNone | POne | PMany | POpt | PDefault
    else if t == Exclusive then PNone | POne | PMany | POpt | PMutex
    else if t == Silent then PNone | POpt | PHidden
    else t
  }

  /** What each sugar tag means, in the words of the header's comments:
      a switch takes no value and may be left out; "single" takes exactly
      one value and is required; "multi" takes one or more; the optional
      variants may be left out; "any" takes zero, one or more; "default"
      collects the positional tokens; "exclusive" disables the other
      options; "silent" is a hidden switch. */
  lemma SugarMeaning()
    ensures var p := ToPrimitives(Switch);
      !TakesValue(p) && AcceptsNoValue(p) && Optional(p) && !Has(p, PHidden | PMutex | PDefault)
    ensures var p := ToPrimitives(Single);
      Has(p, POne) && !Has(p, PMany) && !AcceptsNoValue(p) && !Optional(p)
    ensures var p := ToPrimitives(Multi);
      Has(p, POne) && Has(p, PMany) && !AcceptsNoValue(p) && !Optional(p)
    ensures var p := ToPrimitives(OptSingle);
      Has(p, POne) && !Has(p, PMany) && !AcceptsNoValue(p) && Optional(p)
    ensures var p := ToPrimitives(OptMulti);
      Has(p, POne) && Has(p, PMany) && !AcceptsNoValue(p) && Optional(p)
    ensures var p := ToPrimitives(OptAny);
      Has(p, POne) && Has(p, PMany) && AcceptsNoValue(p) && Optional(p) && !Has(p, PDefault | PMutex | PHidden)
    ensures var p := ToPrimitives(Default);
      Has(p, PDefault) && Has(p, POne) && Has(p, PMany) && AcceptsNoValue(p) && Optional(p) && !Has(p, PMutex | PHidden)
    ensures var p := ToPrimitives(Exclusive);
      Has(p, PMutex) && Has(p, POne) && Has(p, PMany) && AcceptsNoValue(p) && Optional(p) && !Has(p, PDefault | PHidden)
    ensures var p := ToPrimitives(Silent);
      Has(p, PHidden) && !TakesValue(p) && Optional(p) && !Has(p, PMutex | PDefault)
  {
  }

  /** Distinct sugar tags never collapse into the same primitive set, so the
      conversion loses no information. */
  lemma SugarInjective(a: Flags, b: Flags)
    requires IsSugar(a) && IsSugar(b) && a != b
    ensures ToPrimitives(a) != ToPrimitives(b)
  {
  }

  /** Sugar tags and primitives occupy disjoint bits, so no combination of
      primitives equals the raw sub-command marker value. */
  lemma PrimitivesNeverSubcmd(f: Flags)
    ensures SugarMask & PrimitiveMask == 0
    ensures f & PrimitiveMask != Subcmd
    ensures IsSugar(f) ==> ToPrimitives(f) != Subcmd
  {
  }
}
