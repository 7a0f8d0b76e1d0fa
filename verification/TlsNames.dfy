/** Matching a host against the names of a certificate (section 6.4.3 of RFC 6125: a wildcard is one label). */
module TlsNames {
  import opened Text
  import opened DnsNames

  ghost predicate IsLabel(s: string) { '.' !in s }

  /** A normalised name covers a normalised host. */
  ghost predicate Covers(pattern: string, host: string) {
    if StartsWith(pattern, "*.") then exists first :: IsLabel(first) && first + pattern[1..] == host
    else pattern == host
  }

  /** The test by suffix and number of dots. */
  predicate CoversByCount(pattern: string, host: string) {
    if StartsWith(pattern, "*.") then EndsWith(host, pattern[1..]) && Count(host, '.') == Count(pattern, '.')
    else host == pattern
  }

  lemma CountIsOneLabel(pattern: string, host: string)
    ensures CoversByCount(pattern, host) <==> Covers(pattern, host)
  {
    if StartsWith(pattern, "*.") {
      var suffix := pattern[1..];
      assert pattern == "*" + suffix;
      CountAppend("*", suffix, '.');
      CountZero("*", '.');
      if EndsWith(host, suffix) {
        var first := host[..|host| - |suffix|];
        assert host == first + suffix;
        CountAppend(first, suffix, '.');
        CountZero(first, '.');
        forall other | IsLabel(other) && other + suffix == host ensures other == first {
        }
      } else {
        forall first ensures first + suffix != host {
          assert EndsWith(first + suffix, suffix);
        }
      }
    }
  }

  method HostnameMatchesSan(hostname: string, sans: seq<string>) returns (found: bool)
    ensures found <==> exists i | 0 <= i < |sans| :: Covers(Normal(sans[i]), Normal(hostname))
  {
    var host := Normal(hostname);
    for i := 0 to |sans|
      invariant forall j | 0 <= j < i :: !Covers(Normal(sans[j]), host)
    {
      var pattern := Normal(sans[i]);
      CountIsOneLabel(pattern, host);
      if StartsWith(pattern, "*.") {
        var suffix := pattern[1..];
        if EndsWith(host, suffix) && Count(host, '.') == Count(pattern, '.') {
          return true;
        }
      } else if host == pattern {
        return true;
      }
    }
    return false;
  }

  /** A wildcard covers neither its own parent nor a name more than one label below it. */
  lemma WildcardDepth(parent: string, a: string, b: string)
    requires IsLabel(a)
    ensures !Covers("*." + parent, parent) && Covers("*." + parent, a + "." + parent)
    ensures !Covers("*." + parent, b + "." + a + "." + parent)
  {
    var pattern := "*." + parent;
    assert pattern[1..] == "." + parent;
    CountIsOneLabel(pattern, parent);
    assert a + pattern[1..] == a + "." + parent;
    CountIsOneLabel(pattern, b + "." + a + "." + parent);
    CountAppend("*.", parent, '.');
    var long := b + "." + a + "." + parent;
    assert long == (b + "." + a) + ("." + parent);
    CountAppend(b + "." + a, "." + parent, '.');
    CountAppend(".", parent, '.');
    assert b + "." + a == b + ("." + a);
    CountAppend(b, "." + a, '.');
    CountAppend(".", a, '.');
    assert Count(".", '.') == 1 && Count("*.", '.') == 1 by {
      assert "*."[1..] == ".";
    }
  }
}
