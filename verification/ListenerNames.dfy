/**
 The listener and certificate names a group's domains get by default (`domainSlug`, catalog/catalog.go): when two hosts
 share one.
 */
module ListenerNames {
  import opened Text
  import opened CatalogModel
  import HostOrder
  import Sorting

  /** A host with the star of a wildcard written out. */
  function Spelled(host: string): string {
    if HostOrder.IsWildcard(host) then "wildcard." + host[2..] else host
  }

  /** Two characters print alike when dots are dashes. */
  predicate PrintAlike(a: char, b: char) {
    a == b || (a in ".-" && b in ".-")
  }

  lemma SlugIs(host: string)
    ensures DomainSlug(host) == DashDots(Spelled(host))
  {
    if HostOrder.IsWildcard(host) {
      assert DashDots("wildcard." + host[2..]) == "wildcard-" + DashDots(host[2..]);
    } else {
      assert TrimPrefix(host, "*.") == host;
    }
  }

  /** Two hosts have one default name exactly when they print alike with `wildcard` for a leading star. */
  lemma SlugsMeet(h: string, k: string)
    ensures DomainSlug(h) == DomainSlug(k) <==>
      |Spelled(h)| == |Spelled(k)| && forall i :: 0 <= i < |Spelled(h)| ==> PrintAlike(Spelled(h)[i], Spelled(k)[i])
  {
    SlugIs(h);
    SlugIs(k);
    hide DomainSlug, Spelled;
    var a, b := Spelled(h), Spelled(k);
    if DashDots(a) == DashDots(b) {
      forall i | 0 <= i < |a| ensures PrintAlike(a[i], b[i]) {
        assert DashDots(a)[i] == DashDots(b)[i];
      }
    }
    if |a| == |b| && forall i :: 0 <= i < |a| ==> PrintAlike(a[i], b[i]) {
      forall i | 0 <= i < |a| ensures DashDots(a)[i] == DashDots(b)[i] {
        assert PrintAlike(a[i], b[i]);
      }
    }
  }

  /** Without dashes and without a first label `wildcard`, different hosts have different default names. */
  lemma SlugsDiffer(h: string, k: string)
    requires '-' !in h && '-' !in k && !HasPrefix(h, "wildcard.") && !HasPrefix(k, "wildcard.")
    ensures DomainSlug(h) == DomainSlug(k) <==> h == k
  {
    SlugsMeet(h, k);
    if DomainSlug(h) == DomainSlug(k) {
      var a, b := Spelled(h), Spelled(k);
      forall i | 0 <= i < |a| ensures a[i] == b[i] {
        assert PrintAlike(a[i], b[i]);
      }
      assert a == b;
      assert HasPrefix(a, "wildcard.") <==> HostOrder.IsWildcard(h);
      assert HasPrefix(b, "wildcard.") <==> HostOrder.IsWildcard(k);
      assert HostOrder.IsWildcard(h) ==> h == "*." + a[9..];
      assert HostOrder.IsWildcard(k) ==> k == "*." + b[9..];
    }
  }

  /** What a domain's names are: its own, else the default ones. */
  lemma NamesAre(d: Domain)
    ensures ListenerName(d) == if d.listenerName == "" then DashDots(Spelled(d.host)) else d.listenerName
    ensures SecretName(d) == if d.secretName == "" then DashDots(Spelled(d.host)) + "-tls" else d.secretName
  {
    SlugIs(d.host);
  }

  lemma StarAndWord()
    ensures DomainOk("*.a") && DomainOk("wildcard.a") && Spelled("*.a") == Spelled("wildcard.a")
  {
    assert "*.a"[1] == '.' && "wildcard.a"[8] == '.' && TrimPrefix("*.a", "*.") == "a";
    assert "wildcard.a"[0] == 'w' && TrimPrefix("wildcard.a", "*.") == "wildcard.a";
    assert "*.a"[2..] == "a";
  }

  lemma SharedListener(g: Group, h: string, k: string)
    requires g.domains == [Domain(h, "", "", false, "", ""), Domain(k, "", "", false, "", "")]
    requires DomainSlug(h) == DomainSlug(k)
    ensures !GroupOk(g)
  {
    hide DomainSlug, DomainOk, NamesOk;
    assert ListenersOf(g.domains)[0] == DomainSlug(h) && ListenersOf(g.domains)[1] == DomainSlug(k);
  }

  /** Two hosts the catalog takes one by one, refused in one group because they share a default name. */
  lemma WildcardMeets() returns (h: string, k: string)
    ensures DomainOk(h) && DomainOk(k) && h != k && DomainSlug(h) == DomainSlug(k)
    ensures forall g: Group ::
      g.domains == [Domain(h, "", "", false, "", ""), Domain(k, "", "", false, "", "")] ==> !GroupOk(g)
  {
    h, k := "*.a", "wildcard.a";
    assert |h| != |k|;
    StarAndWord();
    SlugIs(h);
    SlugIs(k);
    hide *;
    forall g: Group | g.domains == [Domain(h, "", "", false, "", ""), Domain(k, "", "", false, "", "")]
      ensures !GroupOk(g)
    {
      SharedListener(g, h, k);
    }
  }
}
