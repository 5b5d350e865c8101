/** The whitelist of the profile update endpoint (src/app/api/profile/route.ts,
    PATCH, lines 27-47): only the editable fields reach the database. */
module ProfilePatch {

  /** The fields a visitor may change. Access expiry and the Stripe customer are not
      among them. */
  const Allowed: seq<string> := ["name", "university", "course", "year_of_study"]

  /** The keys of `updates` that are allowed, with their values unchanged. A key that
      the parsed body holds is defined (`JSON.parse` never yields `undefined`). */
  function Whitelisted<V>(updates: map<string, V>): (f: map<string, V>)
    ensures f.Keys <= set k | k in Allowed
    ensures forall k :: k in f <==> k in updates && k in Allowed
    ensures forall k :: k in f ==> f[k] == updates[k]
  {
    map k | k in updates && k in Allowed :: updates[k]
  }

  /** Lines 37-43: the loop over the allowed keys filling `filtered`. */
  method Filter<V>(updates: map<string, V>) returns (filtered: map<string, V>)
    ensures filtered == Whitelisted(updates)
  {
    filtered := map[];
    var i := 0;
    while i < |Allowed|
      invariant 0 <= i <= |Allowed|
      invariant filtered == map k | k in updates && k in Allowed[..i] :: updates[k]
    {
      var key := Allowed[i];
      assert Allowed[..i + 1] == Allowed[..i] + [key];
      if key in updates {
        filtered := filtered[key := updates[key]];
      }
      i := i + 1;
    }
    assert Allowed[..i] == Allowed;
  }

  /** The answer of the endpoint before any database work. */
  datatype Reply<V> = Unauthorized | BadRequest(error: string) | Apply(fields: map<string, V>)

  /** No signed-in user is 401; a body with no allowed field is a 400 and updates
      nothing; otherwise exactly the whitelisted fields are written. */
  method Patch<V>(signedIn: bool, updates: map<string, V>) returns (r: Reply<V>)
    ensures !signedIn ==> r == Unauthorized
    ensures signedIn && Whitelisted(updates) == map[] ==> r == BadRequest("No valid fields to update")
    ensures signedIn && Whitelisted(updates) != map[] ==> r == Apply(Whitelisted(updates))
  {
    if !signedIn {
      return Unauthorized;
    }
    var filtered := Filter(updates);
    if |filtered| == 0 {
      return BadRequest("No valid fields to update");
    }
    r := Apply(filtered);
  }

  /** Whatever the body holds, the access expiry is never written. */
  lemma ExpiryNeverWritten<V>(updates: map<string, V>)
    ensures "access_expires_at" !in Whitelisted(updates)
    ensures "stripe_customer_id" !in Whitelisted(updates)
  {
  }
}
