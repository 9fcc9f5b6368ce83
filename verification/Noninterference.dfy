/** Copies of gateway-owned headers that a client sends decide nothing (plugin.go). */
module Noninterference {
  import opened Headers
  import opened Gateway
  import opened Mediation

  /** Two requests that differ at most in gateway-owned headers. */
  ghost predicate DifferOnlyInOwned(cfg: Config, r: RequestView, s: RequestView) {
    && s == r.(headers := s.headers)
    && forall n | n !in OwnedNames(cfg) :: Same(r.headers, s.headers, n)
  }

  lemma StripForgetsOwned(cfg: Config, g: HeaderMap, h: HeaderMap)
    requires forall n | n !in OwnedNames(cfg) :: Same(g, h, n)
    ensures Stripped(cfg, g) == Stripped(cfg, h)
  {
    StrippedMeaning(cfg, g);
    StrippedMeaning(cfg, h);
    forall n ensures n in g - OwnedNames(cfg) <==> n in h - OwnedNames(cfg) {
      assert n !in OwnedNames(cfg) ==> Same(g, h, n);
    }
    assert (g - OwnedNames(cfg)).Keys == (h - OwnedNames(cfg)).Keys;
    forall n | n in g - OwnedNames(cfg) ensures (g - OwnedNames(cfg))[n] == (h - OwnedNames(cfg))[n] {
      assert Same(g, h, n);
    }
  }

  /** Noninterference. Two requests that differ only in owned headers get the same answer and, if
      forwarded, arrive with the same headers; in policy mode they must also ask for the same
      application. No assumption on the configured names is needed. */
  lemma OwnedHeadersDecideNothing(cfg: Config, w: World, policyMode: bool, r: RequestView, s: RequestView)
    requires DifferOnlyInOwned(cfg, r, s)
    requires policyMode ==> Requested(cfg, w, r) == Requested(cfg, w, s)
    ensures Serve(cfg, w, policyMode, r) == Serve(cfg, w, policyMode, s)
  {
    SameWithoutOwned(cfg, w, r, s);
    if !policyMode {
      LegacyIgnoresRequested(cfg, w, WithoutOwned(cfg, w, r), Requested(cfg, w, r), Requested(cfg, w, s));
    }
  }

  lemma SameWithoutOwned(cfg: Config, w: World, r: RequestView, s: RequestView)
    requires DifferOnlyInOwned(cfg, r, s)
    ensures WithoutOwned(cfg, w, r) == WithoutOwned(cfg, w, s)
  {
    var g, h := WithRequestId(w, r.headers), WithRequestId(w, s.headers);
    forall n | n !in OwnedNames(cfg) ensures Same(g, h, n) {
      assert Same(r.headers, s.headers, n);
    }
    StripForgetsOwned(cfg, g, h);
  }

  /** The legacy engine is pinned to the host: the application a client asks for is not read. */
  lemma LegacyIgnoresRequested(cfg: Config, w: World, r: RequestView, p: string, q: string)
    ensures ServeStripped(cfg, w, false, r, p) == ServeStripped(cfg, w, false, r, q)
  {
  }

  /** Sending any owned headers but the application id is the same as sending none of them. */
  lemma SpoofingIsIdle(cfg: Config, w: World, policyMode: bool, r: RequestView, spoofed: HeaderMap)
    requires spoofed.Keys <= OwnedNames(cfg) - {cfg.appIdHeader, REQUEST_ID}
    ensures Serve(cfg, w, policyMode, r.(headers := r.headers + spoofed)) == Serve(cfg, w, policyMode, r)
  {
    var s := r.(headers := r.headers + spoofed);
    forall n | n !in OwnedNames(cfg) ensures Same(s.headers, r.headers, n) {
    }
    OwnedHeadersDecideNothing(cfg, w, policyMode, s, r);
  }
}
