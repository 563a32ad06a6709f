/**
 * The cookie-consent banner (src/cookies.js). The browser's local storage
 * is a map from keys to texts; the banner is shown on page load while no
 * truthy value is stored under "cookiesAccepted", and the accept button
 * stores "true" there and hides the banner.
 */
module Consent {

  /** The storage key the flag is kept under. */
  const CookieKey := "cookiesAccepted"

  /** `!localStorage.getItem(CookieKey)`: the key is missing (`null`) or
      holds the empty text, the only falsy string. */
  predicate NeedsConsent(storage: map<string, string>) {
    CookieKey !in storage || storage[CookieKey] == ""
  }

  /** The storage after `localStorage.setItem(CookieKey, "true")`. */
  function Accepted(storage: map<string, string>): (after: map<string, string>)
    ensures CookieKey in after && after[CookieKey] == "true"
    ensures after.Keys == storage.Keys + {CookieKey}
    ensures forall k :: k in storage && k != CookieKey ==> after[k] == storage[k]
  {
    storage[CookieKey := "true"]
  }

  /** Once accepted, a load no longer asks for consent. */
  lemma AcceptedNeedsNoConsent(storage: map<string, string>)
    ensures !NeedsConsent(Accepted(storage))
  {
  }

  /** Accepting a second time changes nothing more. */
  lemma AcceptIdempotent(storage: map<string, string>)
    ensures Accepted(Accepted(storage)) == Accepted(storage)
  {
  }

  /** The banner and the storage it consults, as one page sees them. */
  class ConsentBanner {
    var storage: map<string, string>
    var bannerHidden: bool

    /** What the last page left in storage, and the markup's banner. */
    constructor (storage: map<string, string>, bannerHidden: bool)
      ensures this.storage == storage && this.bannerHidden == bannerHidden
    {
      this.storage := storage;
      this.bannerHidden := bannerHidden;
    }

    /** The top-level check at load (src/cookies.js:5-7): reveal the banner
        when consent is missing, otherwise leave it as it is; storage is
        only read. */
    method Load()
      modifies this`bannerHidden
      ensures NeedsConsent(storage) ==> !bannerHidden
      ensures !NeedsConsent(storage) ==> bannerHidden == old(bannerHidden)
    {
      if CookieKey !in storage || storage[CookieKey] == "" {
        bannerHidden := false;
      }
    }

    /** The accept button (src/cookies.js:9-12): store "true" under the
        key, leave every other key alone, hide the banner. */
    method Accept()
      modifies this
      ensures storage == Accepted(old(storage))
      ensures bannerHidden
    {
      storage := storage[CookieKey := "true"];
      bannerHidden := true;
    }
  }

  /** Accepting and then loading again keeps the banner hidden. */
  method AcceptThenLoad(b: ConsentBanner)
    modifies b
    ensures b.bannerHidden && !NeedsConsent(b.storage)
    ensures b.storage == Accepted(old(b.storage))
  {
    b.Accept();
    b.Load();
  }

  /** Two clicks on accept leave what one click leaves. */
  method AcceptTwice(b: ConsentBanner)
    modifies b
    ensures b.bannerHidden
    ensures b.storage == Accepted(old(b.storage))
  {
    b.Accept();
    b.Accept();
  }
}
