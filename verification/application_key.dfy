/** The application key entity: key generation and its query filter. */
module ApplicationKeyEntity {
  import opened Wrappers
  import opened Clover

  const Lower: string := "abcdefghijklmnopqrstuvwxyz"
  const Upper: string := "ABCDEFGHIJKLMNOPQRSTUVWXYZ"
  const Digits: string := "0123456789"

  /** The alphabet generated keys are drawn from: lower-case letters, upper-case letters, digits. */
  const Charset: string := Lower + Upper + Digits

  predicate Alphanumeric(c: char) {
    'a' <= c <= 'z' || 'A' <= c <= 'Z' || '0' <= c <= '9'
  }

  /** The alphabet has 62 letters, all ASCII letters or digits. */
  lemma CharsetIsAlphanumeric()
    ensures |Charset| == 62
    ensures forall i :: 0 <= i < |Charset| ==> Alphanumeric(Charset[i])
  {
  }

  /** Where a character first occurs in a string. */
  function IndexOf(c: char, s: string): (k: nat)
    requires c in s
    ensures k < |s| && s[k] == c
    ensures forall j :: 0 <= j < k ==> s[j] != c
  {
    if s[0] == c then 0 else 1 + IndexOf(c, s[1..])
  }

  /**
   * The random draws under which key generation produces `key`: every string
   * over the alphabet is a key the generator can produce.
   */
  function DrawsFor(key: string): (draws: seq<int>)
    requires forall i :: 0 <= i < |key| ==> key[i] in Charset
    ensures |draws| == |key|
    ensures forall i :: 0 <= i < |key| ==> 0 <= draws[i] < |Charset| && Charset[draws[i]] == key[i]
  {
    seq(|key|, i requires 0 <= i < |key| => IndexOf(key[i], Charset))
  }

  class ApplicationKey {
    var id: string
    var applicationId: string
    var key: string

    constructor (id: string, applicationId: string, key: string)
      ensures this.id == id && this.applicationId == applicationId && this.key == key
    {
      this.id := id;
      this.applicationId := applicationId;
      this.key := key;
    }

    /** A stored key: identified, attached to an application and holding a key. */
    predicate Exist()
      reads this
    {
      id != "" && applicationId != "" && key != ""
    }

    /**
     * Replaces the key with `length` characters of the alphabet. The random
     * source is `draws`: the successive values of a uniform draw below 62.
     */
    method GenerateKey(length: nat, draws: seq<int>)
      requires |draws| == length
      requires forall i :: 0 <= i < length ==> 0 <= draws[i] < |Charset|
      modifies this
      ensures |key| == length
      ensures forall i :: 0 <= i < length ==> key[i] == Charset[draws[i]]
      ensures forall i :: 0 <= i < length ==> Alphanumeric(key[i])
      ensures id == old(id) && applicationId == old(applicationId)
      ensures Exist() <==> id != "" && applicationId != "" && length > 0
    {
      var b := new char[length];
      for i := 0 to length
        modifies b
        invariant forall j :: 0 <= j < i ==> b[j] == Charset[draws[j]]
      {
        b[i] := Charset[draws[i]];
      }
      key := b[..];
      CharsetIsAlphanumeric();
    }
  }

  /** Query filter over application keys. */
  datatype FilterApplicationKey = FilterApplicationKey(skipValidation: bool, applicationId: string, key: string) {

    /** A filter must name its application unless validation is skipped. */
    predicate Validation() {
      if skipValidation then true else applicationId != ""
    }

    /** The document fields the filter tests, in the order it tests them. */
    function Fields(): seq<(string, string)> {
      [("applicationId", applicationId), ("key", key)]
    }

    method Filter() returns (r: Option<Criteria>)
      ensures !Validation() ==> r == None
      ensures r.None? <==> !Validation() || (applicationId == "" && key == "")
      ensures r.Some? ==> LeftNested(r.value) && Conjuncts(r.value) == Terms(Fields())
      ensures r.Some? ==> forall doc :: Matches(r.value, doc) <==> Selects(Fields(), doc)
      ensures Validation() && applicationId != "" && key != "" ==>
                r == Some(And(Eq("applicationId", applicationId), Eq("key", key)))
      ensures Validation() && applicationId != "" && key == "" ==> r == Some(Eq("applicationId", applicationId))
      ensures Validation() && applicationId == "" && key != "" ==> r == Some(Eq("key", key))
    {
      if !Validation() {
        return None;
      }
      var criterias: seq<Criteria> := [];
      ghost var asked: seq<(string, string)> := [];  // the pairs tested so far
      TermsSnoc(asked, "applicationId", applicationId);
      if applicationId != "" {
        criterias := criterias + [Eq("applicationId", applicationId)];
      }
      asked := asked + [("applicationId", applicationId)];
      TermsSnoc(asked, "key", key);
      if key != "" {
        criterias := criterias + [Eq("key", key)];
      }
      asked := asked + [("key", key)];
      assert asked == Fields();
      r := Fold(criterias);
      if r.Some? {
        FilterOfFields(asked);
        assert |criterias| == 2 ==> criterias[..1] == [criterias[0]];
      }
    }
  }
}
