/** Access and routing decisions of the authentication context
    (src/lib/AuthContext.tsx). Times are milliseconds since the epoch. */
module Auth {
  import opened Wrappers

  /** The pages a visitor may see signed out (PUBLIC_PAGES). */
  const PublicPages: seq<string> := ["/", "/login", "/pricing", "/terms", "/privacy", "/about"]

  /** The profile fields these decisions read: the university (empty text is falsy)
      and the access expiry, already read as a time. */
  datatype Profile = Profile(university: Option<string>, accessExpiresAt: Option<int>)

  predicate HasUniversity(p: Profile)
  {
    p.university.Some? && p.university.value != ""
  }

  /** `hasAccess`: an expiry is set and lies after `now`. */
  function HasAccess(profile: Option<Profile>, now: int): (b: bool)
    ensures b <==> exists p :: profile == Some(p) && p.accessExpiresAt.Some? && p.accessExpiresAt.value > now
  {
    profile.Some? && profile.value.accessExpiresAt.Some? && profile.value.accessExpiresAt.value > now
  }

  /** Access once held at `now` is still held at any earlier moment, and lapses for
      good once the expiry has passed. */
  lemma AccessMonotone(profile: Option<Profile>, now: int, later: int)
    requires later >= now
    ensures HasAccess(profile, later) ==> HasAccess(profile, now)
  {
  }

  /** Lines 168-197: where the redirect effect sends the visitor, if anywhere. */
  function Redirect(loading: bool, redirecting: bool, signedIn: bool, profile: Option<Profile>, path: string): (r: Option<string>)
    ensures r.Some? ==> r.value in {"/login", "/onboarding", "/dashboard"}
  {
    if loading || redirecting then None
    else if !signedIn && profile.None? && path !in PublicPages then Some("/login")
    else if signedIn && profile.Some? && !HasUniversity(profile.value) && path != "/onboarding" then Some("/onboarding")
    else if signedIn && profile.Some? && HasUniversity(profile.value) && (path == "/login" || path == "/onboarding") then Some("/dashboard")
    else None
  }

  /** The rules the redirect effect enforces. */
  lemma RedirectRules(loading: bool, redirecting: bool, signedIn: bool, profile: Option<Profile>, path: string)
    ensures var r := Redirect(loading, redirecting, signedIn, profile, path);
      (loading || redirecting ==> r.None?) &&
      (!loading && !redirecting && !signedIn && profile.None? && path !in PublicPages ==> r == Some("/login")) &&
      (path in PublicPages ==> r != Some("/login")) &&
      (r == Some("/login") <==> !loading && !redirecting && !signedIn && profile.None? && path !in PublicPages) &&
      (r == Some("/onboarding") <==> !loading && !redirecting && signedIn && profile.Some? && !HasUniversity(profile.value) && path != "/onboarding") &&
      (r == Some("/dashboard") <==> !loading && !redirecting && signedIn && profile.Some? && HasUniversity(profile.value) && (path == "/login" || path == "/onboarding"))
  {
  }

  /** A settled visitor stays put: after following a redirect, the same state gives no
      further redirect. */
  lemma RedirectSettles(signedIn: bool, profile: Option<Profile>, path: string)
    requires Redirect(false, false, signedIn, profile, path).Some?
    ensures Redirect(false, false, signedIn, profile, Redirect(false, false, signedIn, profile, path).value).None?
  {
  }

  /** The provider's state: the session user, the profile held in memory, its copy
      in session storage (which outlives the provider) and the loading flag. */
  class ProfileStore {
    var signedIn: bool
    var profile: Option<Profile>
    var cache: Option<Profile>
    var loading: bool

    /** A profile held in memory is always the one in session storage. */
    predicate Valid()
      reads this
    {
      profile.Some? ==> cache == profile
    }

    /** Lines 56-58: nobody signed in, no profile, loading; whatever an earlier page
        left in session storage is still there. */
    constructor (stored: Option<Profile>)
      ensures Valid() && !signedIn && profile.None? && loading && cache == stored
    {
      signedIn, profile, cache, loading := false, None, stored, true;
    }

    /** Lines 101-107: a cached profile is shown at once and unblocks the page. */
    method LoadCache()
      requires Valid()
      modifies this
      ensures Valid() && signedIn == old(signedIn) && cache == old(cache)
      ensures old(cache).Some? ==> profile == old(cache) && !loading
      ensures old(cache).None? ==> profile == old(profile) && loading == old(loading)
    {
      if cache.Some? {
        profile := cache;
        loading := false;
      }
    }

    /** `updateProfile`: a profile is kept and cached; `null` clears both. */
    method Update(p: Option<Profile>)
      modifies this
      ensures Valid() && profile == p && cache == p
      ensures signedIn == old(signedIn) && loading == old(loading)
    {
      profile := p;
      if p.Some? {
        cache := p;
      } else {
        cache := None;
      }
    }

    /** `refreshProfile`: with a user signed in, a profile that was fetched replaces the
        one held; a failed fetch keeps it. */
    method Refresh(fetched: Option<Profile>)
      requires Valid()
      modifies this
      ensures Valid() && signedIn == old(signedIn) && loading == old(loading)
      ensures old(signedIn) && fetched.Some? ==> profile == fetched && cache == fetched
      ensures !(old(signedIn) && fetched.Some?) ==> profile == old(profile) && cache == old(cache)
    {
      if signedIn && fetched.Some? {
        Update(fetched);
      }
    }

    /** `init` (lines 116-139): with a session the user is kept and a fresh profile is
        cached; without one everything is cleared. Either way the page is unblocked. */
    method Init(session: bool, fetched: Option<Profile>)
      requires Valid()
      modifies this
      ensures Valid() && signedIn == session && !loading
      ensures session && fetched.Some? ==> profile == fetched && cache == fetched
      ensures session && fetched.None? ==> profile == old(profile) && cache == old(cache)
      ensures !session ==> profile.None? && cache.None?
    {
      signedIn := session;
      if session {
        if fetched.Some? {
          Update(fetched);
        }
      } else {
        Update(None);
      }
      loading := false;
    }

    /** A SIGNED_IN event (lines 146-150): the user is kept and a fetched profile is
        cached. */
    method SignedIn(fetched: Option<Profile>)
      requires Valid()
      modifies this
      ensures Valid() && signedIn && !loading
      ensures fetched.Some? ==> profile == fetched && cache == fetched
      ensures fetched.None? ==> profile == old(profile) && cache == old(cache)
    {
      signedIn := true;
      if fetched.Some? {
        Update(fetched);
      }
      loading := false;
    }

    /** A SIGNED_OUT event (lines 151-154): user, profile and cache are cleared, so every
        protected page now sends the visitor to /login. */
    method SignedOut()
      modifies this
      ensures Valid() && !signedIn && profile.None? && cache.None? && !loading
      ensures forall path :: path !in PublicPages ==> Redirect(loading, false, signedIn, profile, path) == Some("/login")
    {
      signedIn := false;
      Update(None);
      loading := false;
    }

    /** `signOut` (lines 199-205): once the sign-out completes, user, profile and cache
        are cleared and the visitor is sent home. */
    method SignOut() returns (dest: string)
      modifies this
      ensures Valid() && !signedIn && profile.None? && cache.None? && loading == old(loading)
      ensures dest == "/" && dest in PublicPages
    {
      signedIn := false;
      Update(None);
      dest := "/";
    }
  }
}
