/** The registry of mask factories: names are stored lower-cased, so look-ups ignore
    case; a look-up of a missing or unregistered name is an invalid-mask error; the
    public names "cg1", "cg1-fast" and "cg2" are aliases of registered masks. */
module MaskFactories {
  import opened Wrappers
  import opened JavaStrings

  /** The mask implementations registered. */
  datatype Factory =
    | CGMaska0
    | CGMaska1b1
    | CGMaska15b1
    | CGMaska1b1alt
    | CGMaska15b1alt
    | CG2Maska1
    | CG2Maska11
    | CG2Maska15
    | CG2Maskw18
    | CG2Maskw18a1

  /** The error reported for an unusable mask name (absent when no name was given). */
  datatype InvalidMask = InvalidMask(mask: Option<string>)

  /** The lower-cased forms of the registered names. */
  lemma RegisteredNamesLowered()
    ensures ToLower("CGMaska0") == "cgmaska0" && ToLower("CGMaska1b1") == "cgmaska1b1"
    ensures ToLower("CGMaska15b1") == "cgmaska15b1" && ToLower("CGMaska1b1alt") == "cgmaska1b1alt"
    ensures ToLower("CGMaska15b1alt") == "cgmaska15b1alt" && ToLower("CG2Maska1") == "cg2maska1"
    ensures ToLower("CG2Maska11") == "cg2maska11" && ToLower("CG2Maska15") == "cg2maska15"
    ensures ToLower("CG2Maskw18") == "cg2maskw18" && ToLower("CG2Maskw18a1") == "cg2maskw18a1"
    ensures ToLower("cg1") == "cg1" && ToLower("cg1-fast") == "cg1-fast" && ToLower("cg2") == "cg2"
  {
  }

  /** The registry as a name-keyed table, filled by the static initialiser. */
  class FactoryRegistry {
    var maskFactories: map<string, Factory>

    /** Every key is stored in lower case. */
    predicate Valid()
      reads this
    {
      forall name :: name in maskFactories ==> ToLower(name) == name
    }

    /** `putFactory`: registers the factory under the lower-cased name. */
    method PutFactory(name: string, factory: Factory)
      requires Valid()
      modifies this
      ensures Valid()
      ensures maskFactories == old(maskFactories)[ToLower(name) := factory]
    {
      ToLowerIdempotent(name);
      maskFactories := maskFactories[ToLower(name) := factory];
    }

    /** The static initialiser: the ten masks under their class names, then the three
        public aliases. */
    constructor ()
      ensures Valid()
      ensures maskFactories == map[
        "cgmaska0" := CGMaska0, "cgmaska1b1" := CGMaska1b1, "cgmaska15b1" := CGMaska15b1,
        "cgmaska1b1alt" := CGMaska1b1alt, "cgmaska15b1alt" := CGMaska15b1alt,
        "cg2maska1" := CG2Maska1, "cg2maska11" := CG2Maska11, "cg2maska15" := CG2Maska15,
        "cg2maskw18" := CG2Maskw18, "cg2maskw18a1" := CG2Maskw18a1,
        "cg1" := CGMaska15b1, "cg1-fast" := CGMaska1b1, "cg2" := CG2Maskw18a1]
    {
      maskFactories := map[];
      new;
      RegisteredNamesLowered();
      PutFactory("CGMaska0", CGMaska0);
      PutFactory("CGMaska1b1", CGMaska1b1);
      PutFactory("CGMaska15b1", CGMaska15b1);
      PutFactory("CGMaska1b1alt", CGMaska1b1alt);
      PutFactory("CGMaska15b1alt", CGMaska15b1alt);
      PutFactory("CG2Maska1", CG2Maska1);
      PutFactory("CG2Maska11", CG2Maska11);
      PutFactory("CG2Maska15", CG2Maska15);
      PutFactory("CG2Maskw18", CG2Maskw18);
      PutFactory("CG2Maskw18a1", CG2Maskw18a1);
      PutFactory("cg1", CGMaska15b1);
      PutFactory("cg1-fast", CGMaska1b1);
      PutFactory("cg2", CG2Maskw18a1);
    }

    /** `checkMaskExists`: false without a name, otherwise whether the lower-cased name
        is registered. */
    predicate CheckMaskExists(mask: Option<string>)
      reads this
    {
      mask.Some? && ToLower(mask.value) in maskFactories
    }

    /** `hashFunction`: the factory registered under the lower-cased name. */
    function HashFunction(mask: Option<string>): (r: Result<Factory, InvalidMask>)
      reads this
    {
      var m := if mask.None? then None else Some(ToLower(mask.value));
      if m.Some? && m.value in maskFactories then Ok(maskFactories[m.value]) else Err(InvalidMask(mask))
    }

    /** A look-up succeeds exactly when the mask exists, and then gives the factory
        registered under the lower-cased name; otherwise the error names the mask given. */
    lemma HashFunctionAgreesWithCheck(mask: Option<string>)
      ensures HashFunction(mask).Ok? <==> CheckMaskExists(mask)
      ensures HashFunction(mask).Ok? ==> HashFunction(mask).value == maskFactories[ToLower(mask.value)]
      ensures HashFunction(mask).Err? ==> HashFunction(mask).error == InvalidMask(mask)
    {
    }

    /** Two spellings that lower-case alike are the same mask. */
    lemma CaseInsensitive(a: string, b: string)
      requires ToLower(a) == ToLower(b)
      ensures CheckMaskExists(Some(a)) <==> CheckMaskExists(Some(b))
      ensures HashFunction(Some(a)).Ok? ==> HashFunction(Some(a)) == HashFunction(Some(b))
    {
    }

    /** With the initialised registry, the public aliases resolve to the masks they
        stand for, whatever their case, and a name that is not given does not. */
    lemma AliasesResolve()
      requires maskFactories == map[
        "cgmaska0" := CGMaska0, "cgmaska1b1" := CGMaska1b1, "cgmaska15b1" := CGMaska15b1,
        "cgmaska1b1alt" := CGMaska1b1alt, "cgmaska15b1alt" := CGMaska15b1alt,
        "cg2maska1" := CG2Maska1, "cg2maska11" := CG2Maska11, "cg2maska15" := CG2Maska15,
        "cg2maskw18" := CG2Maskw18, "cg2maskw18a1" := CG2Maskw18a1,
        "cg1" := CGMaska15b1, "cg1-fast" := CGMaska1b1, "cg2" := CG2Maskw18a1]
      ensures HashFunction(Some("cg1")) == HashFunction(Some("CGMaska15b1")) == Ok(CGMaska15b1)
      ensures HashFunction(Some("cg1-fast")) == HashFunction(Some("CGMaska1b1")) == Ok(CGMaska1b1)
      ensures HashFunction(Some("CG2")) == HashFunction(Some("CG2Maskw18a1")) == Ok(CG2Maskw18a1)
      ensures !CheckMaskExists(None) && HashFunction(None) == Err(InvalidMask(None))
    {
      assert ToLower("cg1") == "cg1";
      assert ToLower("CGMaska15b1") == "cgmaska15b1";
      assert ToLower("cg1-fast") == "cg1-fast";
      assert ToLower("CGMaska1b1") == "cgmaska1b1";
      assert ToLower("CG2") == "cg2";
      assert ToLower("CG2Maskw18a1") == "cg2maskw18a1";
    }
  }
}
