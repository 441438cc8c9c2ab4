/** The field validators of the upload form (`src/utils/validation.js`).

    Both validators are total predicates on strings. `ValidateEmail` tests the
    regular expression `^[^\s@]+@[^\s@]+\.[^\s@]+$`; here the test is carried out
    by a left-to-right automaton (`Scan`), and the lemmas characterise the
    accepted strings by their split at the `@`. `ValidateName` tests that the
    trimmed string has at least two characters and that the whole string
    matches `^[A-Za-z\s'-]+$`. */
module Validation {
  import opened Common

  // ---------------------------------------------------------------------------
  // validateEmail
  // ---------------------------------------------------------------------------

  /** A character of the regular-expression class `[^\s@]`. */
  predicate EmailChar(c: char)
  {
    !IsSpace(c) && c != '@'
  }

  predicate NoSpaceOrAt(t: string)
  {
    forall i :: 0 <= i < |t| ==> EmailChar(t[i])
  }

  /** `d` has a '.' with at least one character before and after it. */
  predicate HasInteriorDot(d: string)
  {
    exists i :: 1 <= i <= |d| - 2 && d[i] == '.'
  }

  /** `d` has at least two characters and ends in '.', so that its last '.'
      could still be the separating dot of the domain. */
  predicate DotLast(d: string)
  {
    |d| >= 2 && d[|d| - 1] == '.'
  }

  /** What an accepted address `local@domain` is made of. */
  predicate EmailParts(local: string, domain: string)
  {
    local != [] && NoSpaceOrAt(local) && NoSpaceOrAt(domain) && HasInteriorDot(domain)
  }

  /** `s` splits at index `a` into an accepted `local@domain`. */
  predicate SplitAt(s: string, a: int)
  {
    0 <= a < |s| && s[a] == '@' && EmailParts(s[..a], s[a + 1..])
  }

  /** The states of the email automaton. In the domain it remembers whether
      the last character read was a '.' that may separate the domain from its
      last label, and whether such a separator has already been followed by a
      character (the accepting condition). */
  datatype ScanState =
    | Start
    | Local
    | AfterAt
    | InDomain(dotLast: bool, tail: bool)
    | Reject

  function Step(q: ScanState, c: char): ScanState
  {
    if IsSpace(c) then Reject
    else if c == '@' then (if q == Local then AfterAt else Reject)
    else match q
      case Start => Local
      case Local => Local
      case AfterAt => InDomain(false, false)
      case InDomain(dotLast, tail) => InDomain(c == '.', tail || dotLast)
      case Reject => Reject
  }

  /** The state the automaton reaches after reading `s` from left to right. */
  function Scan(s: string): ScanState
    decreases |s|
  {
    if s == [] then Start else Step(Scan(s[..|s| - 1]), s[|s| - 1])
  }

  predicate Accepting(q: ScanState)
  {
    q.InDomain? && q.tail
  }

  /** validateEmail: false for the empty (falsy) string, otherwise the regular
      expression test. */
  function ValidateEmail(email: string): (r: bool)
    ensures email == "" ==> !r
  {
    if email == "" then false else Accepting(Scan(email))
  }

  /** The domain part of a prefix in a domain state, split at `a`. */
  predicate DomainAt(p: string, a: int, q: ScanState)
    requires q.InDomain?
  {
    1 <= a < |p| - 1 && p[a] == '@' && NoSpaceOrAt(p[..a]) && NoSpaceOrAt(p[a + 1..])
    && q.dotLast == DotLast(p[a + 1..]) && q.tail == HasInteriorDot(p[a + 1..])
  }

  lemma InteriorDotSnoc(d: string, c: char)
    requires |d| >= 1
    ensures HasInteriorDot(d + [c]) <==> HasInteriorDot(d) || DotLast(d)
  {
    var e := d + [c];
    if HasInteriorDot(e) {
      var i :| 1 <= i <= |e| - 2 && e[i] == '.';
      if i < |d| - 1 {
        assert d[i] == '.';
      } else {
        assert DotLast(d);
      }
    }
    if HasInteriorDot(d) {
      var i :| 1 <= i <= |d| - 2 && d[i] == '.';
      assert e[i] == '.';
    }
    if DotLast(d) {
      assert e[|d| - 1] == '.';
    }
  }

  /** What each automaton state says about the prefix read so far. */
  lemma {:induction false} ScanMeaning(p: string)
    ensures Scan(p) == Start ==> p == []
    ensures Scan(p) == Local ==> p != [] && NoSpaceOrAt(p)
    ensures Scan(p) == AfterAt ==> |p| >= 2 && p[|p| - 1] == '@' && NoSpaceOrAt(p[..|p| - 1])
    ensures Scan(p).InDomain? ==> exists a :: DomainAt(p, a, Scan(p))
    decreases |p|
  {
    if p != [] {
      var p', c := p[..|p| - 1], p[|p| - 1];
      assert p == p' + [c];
      ScanMeaning(p');
      var q := Scan(p');
      match q
      case Start =>
      case Local =>
      case AfterAt =>
        if Scan(p).InDomain? {
          var a := |p'| - 1;
          assert p[..a] == p'[..a];
          assert p[a + 1..] == [c];
          assert DomainAt(p, a, Scan(p));
        }
      case InDomain(dotLast, tail) =>
        if Scan(p).InDomain? {
          var a :| DomainAt(p', a, q);
          var d := p'[a + 1..];
          assert p[..a] == p'[..a];
          assert p[a + 1..] == d + [c];
          InteriorDotSnoc(d, c);
          assert DomainAt(p, a, Scan(p));
        }
      case Reject =>
    }
  }

  lemma {:induction false} ScanLocal(l: string)
    requires l != [] && NoSpaceOrAt(l)
    ensures Scan(l) == Local
    decreases |l|
  {
    var l' := l[..|l| - 1];
    if l' != [] {
      ScanLocal(l');
    }
  }

  lemma {:induction false} ScanDomain(l: string, d: string)
    requires l != [] && NoSpaceOrAt(l) && NoSpaceOrAt(d)
    ensures Scan(l + ['@'] + d) == if d == [] then AfterAt else InDomain(DotLast(d), HasInteriorDot(d))
    decreases |d|
  {
    var s := l + ['@'] + d;
    if d == [] {
      assert s[..|s| - 1] == l;
      ScanLocal(l);
    } else {
      var d', c := d[..|d| - 1], d[|d| - 1];
      assert s[..|s| - 1] == l + ['@'] + d';
      assert d == d' + [c];
      ScanDomain(l, d');
      if d' != [] {
        InteriorDotSnoc(d', c);
      }
    }
  }

  /** validateEmail(s) holds exactly when s is `local@domain` with a non-empty
      local part, no whitespace and no further '@' on either side, and a '.'
      strictly inside the domain. */
  lemma EmailCharacterization(s: string)
    ensures ValidateEmail(s) <==> exists a :: SplitAt(s, a)
  {
    if ValidateEmail(s) {
      ScanMeaning(s);
      var a :| DomainAt(s, a, Scan(s));
      assert SplitAt(s, a);
    }
    if a :| SplitAt(s, a) {
      var l, d := s[..a], s[a + 1..];
      assert s == l + ['@'] + d;
      ScanDomain(l, d);
    }
  }

  /** The same characterisation, for a string given as `local + "@" + domain`. */
  lemma EmailOfParts(local: string, domain: string)
    ensures ValidateEmail(local + ['@'] + domain) <==> EmailParts(local, domain)
  {
    var s := local + ['@'] + domain;
    EmailCharacterization(s);
    if ValidateEmail(s) {
      var a :| SplitAt(s, a);
      if a != |local| {
        // s[|local|] is an '@' inside one of the two parts of the split
        assert false;
      }
      assert s[..a] == local && s[a + 1..] == domain;
    } else if EmailParts(local, domain) {
      assert SplitAt(s, |local|);
    }
  }

  /** An accepted address contains exactly one '@' and no whitespace. */
  lemma AcceptedEmailShape(s: string)
    requires ValidateEmail(s)
    ensures multiset(s)['@'] == 1
    ensures forall i :: 0 <= i < |s| ==> !IsSpace(s[i])
  {
    EmailCharacterization(s);
    var a :| SplitAt(s, a);
    var l, d := s[..a], s[a + 1..];
    assert s == l + ['@'] + d;
    assert '@' !in l && '@' !in d;
    assert multiset(s) == multiset(l) + multiset{'@'} + multiset(d);
    forall i | 0 <= i < |s|
      ensures !IsSpace(s[i])
    {
      if i < a {
        assert s[i] == l[i];
      } else if i > a {
        assert s[i] == d[i - a - 1];
      }
    }
  }

  /** Addresses the validator accepts: the domain needs one interior dot,
      and two dots in a row are allowed. */
  lemma EmailsAccepted()
    ensures ValidateEmail("a@b.com") && ValidateEmail("a@b..c")
  {
    EmailOfParts("a", "b.com");
    assert "a@b.com" == "a" + ['@'] + "b.com";
    assert "b.com"[1] == '.';
    EmailOfParts("a", "b..c");
    assert "a@b..c" == "a" + ['@'] + "b..c";
    assert "b..c"[1] == '.';
  }

  /** Domains the validator rejects: no dot, a dot first, a dot last. */
  lemma EmailDomainsRejected()
    ensures !ValidateEmail("a@b") && !ValidateEmail("a@.com") && !ValidateEmail("a@b.")
  {
    EmailOfParts("a", "b");
    assert "a@b" == "a" + ['@'] + "b";
    EmailOfParts("a", ".com");
    assert "a@.com" == "a" + ['@'] + ".com";
    EmailOfParts("a", "b.");
    assert "a@b." == "a" + ['@'] + "b.";
  }

  /** Addresses the validator rejects for their characters: whitespace, a
      second '@', nothing at all. */
  lemma EmailCharactersRejected()
    ensures !ValidateEmail("a b@c.d") && !ValidateEmail("a@b@c.d") && !ValidateEmail("")
  {
    EmailOfParts("a b", "c.d");
    assert "a b@c.d" == "a b" + ['@'] + "c.d";
    assert IsSpace("a b"[1]);
    EmailOfParts("a", "b@c.d");
    assert "a@b@c.d" == "a" + ['@'] + "b@c.d";
    assert "b@c.d"[1] == '@';
  }

  // ---------------------------------------------------------------------------
  // validateName
  // ---------------------------------------------------------------------------

  /** A character of the regular-expression class `[A-Za-z\s'-]`. */
  predicate NameChar(c: char)
  {
    IsAsciiLetter(c) || IsSpace(c) || c == '\'' || c == '-'
  }

  /** The test of `^[A-Za-z\s'-]+$`: one or more name characters. */
  predicate NamePattern(s: string)
    decreases |s|
  {
    s != [] && NameChar(s[0]) && (|s| == 1 || NamePattern(s[1..]))
  }

  function TrimStart(s: string): (r: string)
    decreases |s|
  {
    if s != [] && IsSpace(s[0]) then TrimStart(s[1..]) else s
  }

  function TrimEnd(s: string): (r: string)
    decreases |s|
  {
    if s != [] && IsSpace(s[|s| - 1]) then TrimEnd(s[..|s| - 1]) else s
  }

  /** `String.prototype.trim`: whitespace removed from both ends. */
  function Trim(s: string): string
  {
    TrimEnd(TrimStart(s))
  }

  /** validateName: false for the empty (falsy) string, otherwise the trimmed
      length is at least 2 and the whole string matches the name pattern. */
  function ValidateName(name: string): (r: bool)
    ensures name == "" ==> !r
  {
    if name == "" then false else |Trim(name)| >= 2 && NamePattern(name)
  }

  lemma {:induction false} NamePatternAll(s: string)
    ensures NamePattern(s) <==> s != [] && forall i :: 0 <= i < |s| ==> NameChar(s[i])
    decreases |s|
  {
    if |s| > 1 {
      NamePatternAll(s[1..]);
      if forall i :: 0 <= i < |s| ==> NameChar(s[i]) {
        assert forall i :: 0 <= i < |s[1..]| ==> NameChar(s[1..][i]) by {
          forall i | 0 <= i < |s[1..]| ensures NameChar(s[1..][i]) {
            assert s[1..][i] == s[i + 1];
          }
        }
      }
      if NamePattern(s) {
        forall i | 0 <= i < |s| ensures NameChar(s[i]) {
          if i > 0 {
            assert s[i] == s[1..][i - 1];
          }
        }
      }
    }
  }

  /** TrimStart drops exactly the leading whitespace. */
  lemma {:induction false} TrimStartSlice(s: string) returns (k: nat)
    ensures k <= |s| && TrimStart(s) == s[k..]
    ensures forall i :: 0 <= i < k ==> IsSpace(s[i])
    ensures k < |s| ==> !IsSpace(s[k])
    decreases |s|
  {
    if s != [] && IsSpace(s[0]) {
      var k' := TrimStartSlice(s[1..]);
      k := k' + 1;
      assert s[1..][k'..] == s[k..];
      forall i | 0 <= i < k ensures IsSpace(s[i]) {
        if i > 0 {
          assert s[i] == s[1..][i - 1];
        }
      }
    } else {
      k := 0;
    }
  }

  /** TrimEnd drops exactly the trailing whitespace. */
  lemma {:induction false} TrimEndSlice(s: string) returns (m: nat)
    ensures m <= |s| && TrimEnd(s) == s[..m]
    ensures forall i :: m <= i < |s| ==> IsSpace(s[i])
    ensures m > 0 ==> !IsSpace(s[m - 1])
    decreases |s|
  {
    if s != [] && IsSpace(s[|s| - 1]) {
      var s' := s[..|s| - 1];
      m := TrimEndSlice(s');
      assert s'[..m] == s[..m];
      forall i | m <= i < |s| ensures IsSpace(s[i]) {
        if i < |s| - 1 {
          assert s[i] == s'[i];
        }
      }
    } else {
      m := |s|;
    }
  }

  /** The trimmed string has at least two characters exactly when the string
      holds two non-whitespace characters. */
  lemma TrimmedLengthAtLeastTwo(s: string)
    ensures |Trim(s)| >= 2 <==> exists i, j :: 0 <= i < j < |s| && !IsSpace(s[i]) && !IsSpace(s[j])
  {
    var k := TrimStartSlice(s);
    var t := s[k..];
    var m := TrimEndSlice(t);
    assert Trim(s) == t[..m];
    if |Trim(s)| >= 2 {
      assert t[0] == s[k] && t[m - 1] == s[k + m - 1];
      assert !IsSpace(s[k]) && !IsSpace(s[k + m - 1]);
    }
    if exists i, j :: 0 <= i < j < |s| && !IsSpace(s[i]) && !IsSpace(s[j]) {
      var i, j :| 0 <= i < j < |s| && !IsSpace(s[i]) && !IsSpace(s[j]);
      assert k <= i;
      assert s[j] == t[j - k];
      assert j - k < m;
    }
  }

  /** validateName(s) holds exactly when trim(s) has at least two characters
      and every character of s is an ASCII letter, whitespace, ' or -. */
  lemma NameCharacterization(s: string)
    ensures ValidateName(s) <==> |Trim(s)| >= 2 && forall i :: 0 <= i < |s| ==> NameChar(s[i])
  {
    NamePatternAll(s);
    var k := TrimStartSlice(s);
    var m := TrimEndSlice(s[k..]);
  }

  /** Names with a character outside the class, and names with fewer than two
      non-whitespace characters (all-whitespace ones among them), are rejected. */
  lemma NameRejections(s: string)
    ensures (exists i :: 0 <= i < |s| && !NameChar(s[i])) ==> !ValidateName(s)
    ensures (forall i, j :: 0 <= i < j < |s| ==> IsSpace(s[i]) || IsSpace(s[j])) ==> !ValidateName(s)
  {
    NameCharacterization(s);
    TrimmedLengthAtLeastTwo(s);
  }

  /** Names the validator accepts; no letter is required. */
  lemma NamesAccepted()
    ensures ValidateName("Ada") && ValidateName("--")
  {
    NameCharacterization("Ada");
    TrimmedLengthAtLeastTwo("Ada");
    assert !IsSpace("Ada"[0]) && !IsSpace("Ada"[1]);
    NameCharacterization("--");
    TrimmedLengthAtLeastTwo("--");
    assert !IsSpace("--"[0]) && !IsSpace("--"[1]);
  }

  /** A longer name is accepted too. */
  lemma LongNameAccepted()
    ensures ValidateName("Lovelace")
  {
    NameCharacterization("Lovelace");
    TrimmedLengthAtLeastTwo("Lovelace");
    assert !IsSpace("Lovelace"[0]) && !IsSpace("Lovelace"[1]);
  }

  /** Names the validator rejects: a digit, a single letter, whitespace only. */
  lemma NamesRejected()
    ensures !ValidateName("Ada1") && !ValidateName("A") && !ValidateName(" A ") && !ValidateName("   ")
  {
    NameRejections("Ada1");
    assert !NameChar("Ada1"[3]);
    NameRejections("A");
    NameRejections(" A ");
    NameRejections("   ");
  }
}
