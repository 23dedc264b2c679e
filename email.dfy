/** The contact form's e-mail shape check, `/^[^\s@]+@[^\s@]+\.[^\s@]+$/`, stated
    three ways and proved to agree: as the pattern reads (`MatchesPattern`), as an
    explicit description of the accepted strings (`ShapeOk`), and as the
    single-pass character scanner the form calls (`ValidateEmail`). */
module Email {
  import opened Text
  import opened Optional

  /** A character of the pattern's class `[^\s@]`. */
  predicate IsPlain(c: char) {
    !IsSpace(c) && c != '@'
  }

  predicate AllPlain(s: string) {
    forall k :: 0 <= k < |s| ==> IsPlain(s[k])
  }

  predicate NoSpace(s: string) {
    forall k :: 0 <= k < |s| ==> !IsSpace(s[k])
  }

  /** The first index of `c` in `s`, or `|s|` when there is none. */
  function IndexOf(s: string, c: char): (i: nat)
    ensures i <= |s|
    ensures i < |s| ==> s[i] == c
    ensures forall k :: 0 <= k < i ==> s[k] != c
  {
    if s == [] then 0
    else if s[0] == c then 0
    else 1 + IndexOf(s[1..], c)
  }

  /** The part of the address before its first `@` and the part after it. */
  function LocalPart(s: string): string {
    s[..IndexOf(s, '@')]
  }

  function Domain(s: string): string {
    var at := IndexOf(s, '@');
    if at < |s| then s[at + 1..] else []
  }

  /** `d` has a `.` that is neither its first nor its last character. */
  predicate HasInnerDot(d: string) {
    exists k :: 0 < k < |d| - 1 && d[k] == '.'
  }

  /** The pattern read literally: `s` splits as A "@" B "." C with A, B and C
      non-empty runs of `[^\s@]` (B may itself contain dots). */
  ghost predicate MatchesPattern(s: string) {
    exists at, dot {:trigger s[at], s[dot]} ::
      && 0 < at && at + 1 < dot && dot + 1 < |s|
      && s[at] == '@' && s[dot] == '.'
      && AllPlain(s[..at]) && AllPlain(s[at + 1..dot]) && AllPlain(s[dot + 1..])
  }

  /** The accepted strings described directly: no white space, exactly one `@`,
      a non-empty local part, and a dot strictly inside the domain. */
  ghost predicate ShapeOk(s: string) {
    && NoSpace(s)
    && multiset(s)['@'] == 1
    && LocalPart(s) != []
    && HasInnerDot(Domain(s))
  }

  /** Where the scanner stands after reading a prefix of the address. */
  datatype Phase =
    | Start       // nothing read
    | Local       // a non-empty local part, no `@` yet
    | AfterAt     // the `@`, domain still empty
    | DomainHead  // a non-empty domain with no dot past its first character
    | DotSeen     // the domain ends in such a dot, nothing after it yet
    | DomainDone  // a dot past the first character and a character after it

  /** One scanner step; `None` rejects the address. */
  function Step(p: Phase, c: char): Option<Phase> {
    if IsSpace(c) then None
    else match p
      case Start => if c == '@' then None else Some(Local)
      case Local => if c == '@' then Some(AfterAt) else Some(Local)
      case AfterAt => if c == '@' then None else Some(DomainHead)
      case DomainHead => if c == '@' then None else if c == '.' then Some(DotSeen) else Some(DomainHead)
      case DotSeen => if c == '@' then None else Some(DomainDone)
      case DomainDone => if c == '@' then None else Some(DomainDone)
  }

  function Scan(p: Phase, s: string): bool
    decreases |s|
  {
    if s == [] then p == DomainDone
    else match Step(p, s[0])
      case None => false
      case Some(q) => Scan(q, s[1..])
  }

  /** `validateEmail`: whether the trimmed e-mail field has the shape of an address. */
  function ValidateEmail(email: string): (ok: bool)
    ensures ok <==> MatchesPattern(email)
    ensures ok <==> ShapeOk(email)
  {
    ScanAccepts(email);
    PatternIsShape(email);
    Scan(Start, email)
  }

  lemma {:induction false} ScanDomainDone(r: string)
    ensures Scan(DomainDone, r) <==> AllPlain(r)
    decreases |r|
  {
    if r != [] {
      ScanDomainDone(r[1..]);
      assert forall k :: 0 < k < |r| ==> r[k] == r[1..][k - 1];
    }
  }

  lemma {:induction false} ScanDotSeen(r: string)
    ensures Scan(DotSeen, r) <==> r != [] && AllPlain(r)
  {
    if r != [] {
      ScanDomainDone(r[1..]);
      assert forall k :: 0 < k < |r| ==> r[k] == r[1..][k - 1];
    }
  }

  lemma {:induction false} ScanDomainHead(r: string)
    ensures Scan(DomainHead, r) <==> AllPlain(r) && exists k :: 0 <= k < |r| - 1 && r[k] == '.'
    decreases |r|
  {
    if r != [] {
      var t := r[1..];
      assert forall k :: 0 < k < |r| ==> r[k] == t[k - 1];
      if IsPlain(r[0]) {
        if r[0] == '.' {
          ScanDotSeen(t);
          if Scan(DomainHead, r) { assert 0 <= 0 < |r| - 1 && r[0] == '.'; }
        } else {
          ScanDomainHead(t);
          if exists k :: 0 <= k < |r| - 1 && r[k] == '.' {
            var k :| 0 <= k < |r| - 1 && r[k] == '.';
            assert 0 <= k - 1 < |t| - 1 && t[k - 1] == '.';
          }
          if exists k :: 0 <= k < |t| - 1 && t[k] == '.' {
            var k :| 0 <= k < |t| - 1 && t[k] == '.';
            assert 0 <= k + 1 < |r| - 1 && r[k + 1] == '.';
          }
        }
      }
    }
  }

  lemma {:induction false} ScanAfterAt(r: string)
    ensures Scan(AfterAt, r) <==> AllPlain(r) && HasInnerDot(r)
  {
    if r != [] {
      var t := r[1..];
      assert forall k :: 0 < k < |r| ==> r[k] == t[k - 1];
      ScanDomainHead(t);
      if HasInnerDot(r) {
        var k :| 0 < k < |r| - 1 && r[k] == '.';
        assert 0 <= k - 1 < |t| - 1 && t[k - 1] == '.';
      }
      if exists k :: 0 <= k < |t| - 1 && t[k] == '.' {
        var k :| 0 <= k < |t| - 1 && t[k] == '.';
        assert 0 < k + 1 < |r| - 1 && r[k + 1] == '.';
      }
    }
  }

  /** No `@` in `s` is the same as a zero count of `@`. */
  lemma NoAtIffZeroCount(s: string)
    ensures (forall k :: 0 <= k < |s| ==> s[k] != '@') <==> multiset(s)['@'] == 0
  {
    if multiset(s)['@'] != 0 {
      assert '@' in multiset(s);
      assert '@' in s;
    }
  }

  lemma {:induction false} ScanLocal(r: string)
    ensures Scan(Local, r) <==> NoSpace(r) && multiset(r)['@'] == 1 && HasInnerDot(Domain(r))
    decreases |r|
  {
    if r != [] {
      var t := r[1..];
      assert r == [r[0]] + t;
      assert multiset(r) == multiset{r[0]} + multiset(t);
      assert NoSpace(r) <==> !IsSpace(r[0]) && NoSpace(t) by {
        assert forall k :: 0 < k < |r| ==> r[k] == t[k - 1];
      }
      if !IsSpace(r[0]) {
        if r[0] == '@' {
          ScanAfterAt(t);
          NoAtIffZeroCount(t);
          assert Domain(r) == t;
          assert AllPlain(t) <==> NoSpace(t) && forall k :: 0 <= k < |t| ==> t[k] != '@';
        } else {
          ScanLocal(t);
          assert IndexOf(r, '@') == 1 + IndexOf(t, '@');
          assert Domain(r) == Domain(t);
        }
      }
    }
  }

  /** The scanner accepts exactly the strings of `ShapeOk`. */
  lemma {:induction false} ScanAccepts(s: string)
    ensures Scan(Start, s) <==> ShapeOk(s)
  {
    if s != [] {
      var t := s[1..];
      assert s == [s[0]] + t;
      assert multiset(s) == multiset{s[0]} + multiset(t);
      assert NoSpace(s) <==> !IsSpace(s[0]) && NoSpace(t) by {
        assert forall k :: 0 < k < |s| ==> s[k] == t[k - 1];
      }
      if IsPlain(s[0]) {
        ScanLocal(t);
        assert IndexOf(s, '@') == 1 + IndexOf(t, '@');
        assert Domain(s) == Domain(t);
      }
    }
  }

  /** Reading the pattern literally and describing its strings directly agree. */
  lemma PatternIsShape(s: string)
    ensures MatchesPattern(s) <==> ShapeOk(s)
  {
    if MatchesPattern(s) {
      var at, dot :| && 0 < at && at + 1 < dot && dot + 1 < |s|
        && s[at] == '@' && s[dot] == '.'
        && AllPlain(s[..at]) && AllPlain(s[at + 1..dot]) && AllPlain(s[dot + 1..]);
      PatternSplitIsShape(s, at, dot);
    }
    if ShapeOk(s) {
      ShapeHasSplit(s);
    }
  }

  lemma PatternSplitIsShape(s: string, at: nat, dot: nat)
    requires 0 < at && at + 1 < dot && dot + 1 < |s|
    requires s[at] == '@' && s[dot] == '.'
    requires AllPlain(s[..at]) && AllPlain(s[at + 1..dot]) && AllPlain(s[dot + 1..])
    ensures ShapeOk(s)
  {
    var a, b, c := s[..at], s[at + 1..dot], s[dot + 1..];
    assert s == a + ['@'] + b + ['.'] + c;
    forall k | 0 <= k < |s| ensures !IsSpace(s[k]) && (k != at ==> s[k] != '@') {
      if k < at { assert s[k] == a[k]; }
      else if at < k < dot { assert s[k] == b[k - at - 1]; }
      else if dot < k { assert s[k] == c[k - dot - 1]; }
    }
    assert multiset(s) == multiset(a) + multiset{'@'} + multiset(b) + multiset{'.'} + multiset(c);
    NoAtIffZeroCount(a);
    NoAtIffZeroCount(b);
    NoAtIffZeroCount(c);
    assert IndexOf(s, '@') == at;
    var d := Domain(s);
    assert d == s[at + 1..];
    assert d[dot - at - 1] == '.';
  }

  /** Two `@` at different positions make the count at least two. */
  lemma TwoAts(s: string, i: nat, j: nat)
    requires i < j < |s| && s[i] == '@' && s[j] == '@'
    ensures multiset(s)['@'] >= 2
  {
    assert s == s[..j] + s[j..];
    assert s[i] in s[..j] && s[j] in s[j..];
    assert multiset(s) == multiset(s[..j]) + multiset(s[j..]);
  }

  /** With a single `@` in `s`, no other position holds one. */
  lemma SingleAt(s: string, at: nat)
    requires at < |s| && s[at] == '@' && multiset(s)['@'] == 1
    ensures forall j :: 0 <= j < |s| && j != at ==> s[j] != '@'
  {
    forall j | 0 <= j < |s| && j != at ensures s[j] != '@' {
      if s[j] == '@' {
        if j < at { TwoAts(s, j, at); } else { TwoAts(s, at, j); }
        assert false;
      }
    }
  }

  lemma ShapeHasSplit(s: string)
    requires ShapeOk(s)
    ensures MatchesPattern(s)
  {
    var at := IndexOf(s, '@');
    if at == |s| {
      NoAtIffZeroCount(s);
      assert false;
    }
    SingleAt(s, at);
    var d := Domain(s);
    var k :| 0 < k < |d| - 1 && d[k] == '.';
    var dot := at + 1 + k;
    assert s[dot] == d[k];
    assert AllPlain(s[..at]);
    assert AllPlain(s[at + 1..dot]);
    assert AllPlain(s[dot + 1..]);
  }
}
