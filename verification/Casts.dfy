/** Who acts and for whom (spored/internal/message/cast.go). */
module Casts {

  datatype Identity = Identity(actor: string, origin: string)

  /** The place of the first colon, or the length. */
  function FirstColon(s: string): (k: nat)
    ensures k <= |s| && forall i :: 0 <= i < k ==> s[i] != ':'
    ensures k < |s| ==> s[k] == ':'
    ensures k == |s| <==> ':' !in s
  {
    if s == "" || s[0] == ':' then 0
    else
      var k := FirstColon(s[1..]);
      assert s == [s[0]] + s[1..];
      k + 1
  }

  function CastIdentity(cast: string): Identity {
    var k := FirstColon(cast);
    if k == |cast| then Identity(cast, cast) else Identity(cast[..k], cast[k + 1..])
  }

  function DelegatedCast(actor: string, origin: string): string {
    if actor == origin then actor else actor + ":" + origin
  }

  /** A delegated cast names its actor and origin again exactly when the actor holds no colon;
      it is the actor alone exactly when that is the origin too. */
  lemma DelegationReadBack(actor: string, origin: string)
    ensures CastIdentity(DelegatedCast(actor, origin)) == Identity(actor, origin) <==> ':' !in actor
    ensures DelegatedCast(actor, origin) == actor <==> actor == origin
  {
    var cast := DelegatedCast(actor, origin);
    var k := FirstColon(cast);
    if actor != origin {
      assert cast[|actor|] == ':' && cast[..|actor|] == actor && cast[|actor| + 1..] == origin;
      if k < |actor| {
        assert cast[k] == actor[k];
      }
    }
  }
}
