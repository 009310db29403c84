// The SSH username grammar `{uid}` or `{uid}_-_{target}` (utils/username_grammar.js).
module UsernameGrammar {
  import opened Wrappers

  const SEP := "_-_"

  /** A missing target means the interactive picker. */
  datatype Login = Login(uid: string, target: Option<string>)

  predicate Lower(c: char) { 'a' <= c <= 'z' }
  predicate Upper(c: char) { 'A' <= c <= 'Z' }
  predicate Digit(c: char) { '0' <= c <= '9' }
  predicate Mark(c: char) { c == '.' || c == '_' || c == '-' }

  predicate IsUid(s: string) {
    && 1 <= |s| <= 32 && (Lower(s[0]) || s[0] == '_')
    && forall i :: 1 <= i < |s| ==> Lower(s[i]) || Digit(s[i]) || Mark(s[i])
  }

  predicate IsTargetName(s: string) {
    && 1 <= |s| <= 128 && (Lower(s[0]) || Upper(s[0]) || Digit(s[0]))
    && forall i :: 1 <= i < |s| ==> Lower(s[i]) || Upper(s[i]) || Digit(s[i]) || Mark(s[i])
  }

  // ------------------------------------------------------------- IPv4 addresses

  /** Where the first dot is, or the length. */
  function Dot(s: string): (n: nat)
    ensures n <= |s| && (n < |s| ==> s[n] == '.') && forall i :: 0 <= i < n ==> s[i] != '.'
  {
    if s == "" || s[0] == '.' then 0 else 1 + Dot(s[1..])
  }

  function Number(s: string): nat
    requires forall c :: c in s ==> Digit(c)
  {
    if s == "" then 0 else
      assert Digit(s[|s| - 1]);
      10 * Number(s[..|s| - 1]) + ((s[|s| - 1] as int) - ('0' as int))
  }

  predicate IsOctet(s: string) {
    1 <= |s| <= 3 && (forall c :: c in s ==> Digit(c)) && Number(s) <= 255
  }

  /** `n` octets with dots between them. */
  predicate AreOctets(s: string, n: nat) {
    if n <= 1 then IsOctet(s)
    else Dot(s) < |s| && IsOctet(s[..Dot(s)]) && AreOctets(s[Dot(s) + 1..], n - 1)
  }

  predicate IsIPv4(s: string) { AreOctets(s, 4) }

  // -------------------------------------------------------------------- parsing

  predicate SepAt(s: string, i: nat) {
    i + 3 <= |s| && s[i] == '_' && s[i + 1] == '-' && s[i + 2] == '_'
  }

  ghost predicate ContainsSep(s: string) { exists i :: SepAt(s, i) }

  predicate EndsInHalfSep(s: string) {
    |s| >= 2 && s[|s| - 2] == '_' && s[|s| - 1] == '-'
  }

  /** `indexOf`, from position `i` on. */
  function FindSep(s: string, i: nat): Option<nat>
    decreases |s| - i
  {
    if i + 3 > |s| then None
    else if SepAt(s, i) then Some(i)
    else FindSep(s, i + 1)
  }

  lemma {:induction false} FindSepMeaning(s: string, i: nat)
    ensures var r := FindSep(s, i);
      && (r.Some? ==> i <= r.value && SepAt(s, r.value) && forall j :: i <= j < r.value ==> !SepAt(s, j))
      && (r == None ==> forall j :: i <= j ==> !SepAt(s, j))
    decreases |s| - i
  {
    if i + 3 <= |s| && !SepAt(s, i) {
      FindSepMeaning(s, i + 1);
    }
  }

  function ParseUsername(username: string): Result<Login> {
    if username == "" then Threw("Empty username")
    else
      match FindSep(username, 0)
      case None =>
        if IsUid(username) then Ok(Login(username, None)) else Threw("Invalid username")
      case Some(i) =>
        FindSepMeaning(username, 0);
        var uid, target := username[..i], username[i + |SEP|..];
        if !IsUid(uid) then Threw("Invalid uid in username")
        else if target == "" || (!IsTargetName(target) && !IsIPv4(target)) then Threw("Invalid target in username")
        else Ok(Login(uid, Some(target)))
  }

  /** The username that asks for a login. */
  function Print(l: Login): string {
    if l.target == None then l.uid else l.uid + SEP + l.target.value
  }

  predicate ValidTarget(t: string) { t != "" && (IsTargetName(t) || IsIPv4(t)) }

  predicate ValidLogin(l: Login) {
    IsUid(l.uid) && (l.target.Some? ==> ValidTarget(l.target.value))
  }

  // ----------------------------------------------------------------- properties

  /** Printing undoes parsing: an accepted username is its parts put together again, both valid, and the
      uid contains no separator. */
  lemma ParsingIsUndoneByPrinting(username: string)
    requires ParseUsername(username).Ok?
    ensures var l := ParseUsername(username).value;
            Print(l) == username && ValidLogin(l) && !ContainsSep(l.uid) && (l.target.Some? ==> !EndsInHalfSep(l.uid))
  {
    FindSepMeaning(username, 0);
    var l := ParseUsername(username).value;
    var found := FindSep(username, 0);
    if found.Some? {
      var i := found.value;
      assert username == username[..i] + SEP + username[i + 3..];
      forall j ensures !SepAt(username[..i], j) {
        assert SepAt(username[..i], j) ==> SepAt(username, j);
      }
      HalfSepMakesSep(username, i);
    }
  }

  /** A separator overlaps itself: what ends in its first two characters, in front of it, is one, too. */
  lemma HalfSepMakesSep(s: string, i: nat)
    requires SepAt(s, i)
    ensures EndsInHalfSep(s[..i]) ==> i >= 2 && SepAt(s, i - 2)
  {
  }

  /** Parsing undoes printing exactly when the uid neither contains the separator nor, with a target to
      follow, ends in its first two characters. */
  lemma PrintingIsUndoneExactly(l: Login)
    requires ValidLogin(l)
    ensures ParseUsername(Print(l)) == Ok(l) <==> !ContainsSep(l.uid) && (l.target.Some? ==> !EndsInHalfSep(l.uid))
  {
    if ParseUsername(Print(l)) == Ok(l) {
      ParsingIsUndoneByPrinting(Print(l));
    } else {
      assert ContainsSep(l.uid) || (l.target.Some? && EndsInHalfSep(l.uid)) by {
        UnparsedHasSep(l);
      }
    }
  }

  lemma UnparsedHasSep(l: Login)
    requires ValidLogin(l) && ParseUsername(Print(l)) != Ok(l)
    ensures ContainsSep(l.uid) || (l.target.Some? && EndsInHalfSep(l.uid))
  {
    var s, n := Print(l), |l.uid|;
    FindSepMeaning(s, 0);
    var found := FindSep(s, 0);
    assert s[..n] == l.uid;
    if l.target == None {
      assert found.Some? && SepAt(l.uid, found.value);
    } else {
      assert SepAt(s, n);
      assert s[n + 3..] == l.target.value;
      var i := found.value;
      assert i != n;
      assert s[i] == l.uid[i];
      if i + 3 <= n {
        assert SepAt(l.uid, i);
      } else {
        assert i == n - 2;
      }
    }
  }

  /** A valid uid with a separator in it is taken for another user and a target. */
  lemma SeparatorInUidIsMisread()
    ensures var l := Login("a_-_b", None);
            ValidLogin(l) && ParseUsername(Print(l)) == Ok(Login("a", Some("b")))
  {
    var s := "a_-_b";
    assert !SepAt(s, 0) && SepAt(s, 1);
    assert FindSep(s, 0) == Some(1);
    assert s[..1] == "a" && s[4..] == "b";
  }

  lemma HalfSeparatorIsFound(l: Login)
    requires l.target.Some? && !ContainsSep(l.uid) && EndsInHalfSep(l.uid)
    ensures FindSep(Print(l), 0) == Some(|l.uid| - 2)
  {
    var s, n := Print(l), |l.uid|;
    FindSepMeaning(s, 0);
    assert s[..n] == l.uid && SepAt(s, n - 2);
    assert forall j: nat :: j + 3 <= n && SepAt(s, j) ==> SepAt(l.uid, j);
  }

  /** A valid login whose uid ends in half a separator is refused, not misdirected: what is cut off as the
      target starts with a dash. For example, `a_-` and `b`. */
  lemma HalfSeparatorIsRefused(l: Login)
    requires ValidLogin(l) && l.target.Some? && !ContainsSep(l.uid) && EndsInHalfSep(l.uid)
    ensures ParseUsername(Print(l)).Threw?
  {
    var s, i := Print(l), |l.uid| - 2;
    HalfSeparatorIsFound(l);
    assert s[i + 3..][0] == '-';
    if IsIPv4(s[i + 3..]) {
      Ipv4IsATargetName(s[i + 3..]);
    }
  }

  /** The separate IPv4 test never decides: every IPv4 address is a target name already. */
  lemma Ipv4IsATargetName(t: string)
    requires IsIPv4(t)
    ensures IsTargetName(t)
  {
    OctetsAreNames(t, 4);
    assert t[0] in t[..Dot(t)];
  }

  lemma {:induction false} OctetsAreNames(t: string, n: nat)
    requires AreOctets(t, n)
    ensures 1 <= |t| && |t| <= (if n == 0 then 3 else 4 * n - 1)
    ensures forall i :: 0 <= i < |t| ==> Digit(t[i]) || t[i] == '.'
    decreases n
  {
    if n > 1 {
      var d := Dot(t);
      OctetsAreNames(t[d + 1..], n - 1);
      assert t == t[..d] + ['.'] + t[d + 1..];
      forall i | 0 <= i < d ensures Digit(t[i]) {
        assert t[i] in t[..d];
      }
    } else {
      forall i | 0 <= i < |t| ensures Digit(t[i]) {
        assert t[i] in t;
      }
    }
  }

  /** Where the grammar draws its lines: a uid starts with a small letter or `_` and has up to 32 characters, a target
      starts with a letter or a digit and has up to 128, and an IPv4 address has four numbers up to 255. */
  lemma GrammarBoundaries()
    ensures IsUid("alice.w-1") && IsUid("_") && !IsUid("1a") && !IsUid("Alice") && !IsUid("aB") && !IsUid("")
    ensures IsUid(seq(32, i => 'a')) && !IsUid(seq(33, i => 'a'))
    ensures IsTargetName("Host-1.x") && IsTargetName("9")
    ensures !IsTargetName("-a") && !IsTargetName("_a") && !IsTargetName("a b")
    ensures IsTargetName(seq(128, i => 'Z')) && !IsTargetName(seq(129, i => 'Z'))
    ensures IsOctet("255") && !IsOctet("256") && IsOctet("007") && !IsOctet("") && !IsOctet("0000")
  {
    assert Number("2") == 2 && Number("25") == 25 by {
      assert "25"[..1] == "2";
    }
    assert "255"[..2] == "25" && "256"[..2] == "25";
    assert "aB"[1] == 'B' && "a b"[1] == ' ';
  }

  /** Four such numbers with dots between them. */
  predicate Dotted(s: string, a: string, b: string, c: string, d: string) {
    s == a + ("." + (b + ("." + (c + ("." + d))))) && IsOctet(a) && IsOctet(b) && IsOctet(c) && IsOctet(d)
  }

  lemma Ipv4Exactly(s: string)
    ensures IsIPv4(s) <==> exists a, b, c, d :: Dotted(s, a, b, c, d)
  {
    if IsIPv4(s) {
      Ipv4IsDotted(s);
    }
    forall a, b, c, d | Dotted(s, a, b, c, d) ensures IsIPv4(s) {
      DottedIsIpv4(s, a, b, c, d);
    }
  }

  lemma Ipv4IsDotted(s: string)
    requires IsIPv4(s)
    ensures exists a, b, c, d :: Dotted(s, a, b, c, d)
  {
    var a, r1 := SplitOff(s, 4);
    var b, r2 := SplitOff(r1, 3);
    var c, d := SplitOff(r2, 2);
    assert Dotted(s, a, b, c, d);
  }

  lemma SplitOff(s: string, n: nat) returns (first: string, rest: string)
    requires n > 1 && AreOctets(s, n)
    ensures s == first + ("." + rest) && IsOctet(first) && AreOctets(rest, n - 1)
  {
    first, rest := s[..Dot(s)], s[Dot(s) + 1..];
  }

  lemma DottedIsIpv4(s: string, a: string, b: string, c: string, d: string)
    requires Dotted(s, a, b, c, d)
    ensures IsIPv4(s)
  {
    var r2 := c + ("." + d);
    var r1 := b + ("." + r2);
    FirstDot(a, r1);
    FirstDot(b, r2);
    FirstDot(c, d);
    assert AreOctets(r2, 2);
    assert AreOctets(r1, 3);
  }

  lemma FirstDot(a: string, rest: string)
    requires IsOctet(a)
    ensures var s := a + ("." + rest); Dot(s) == |a| && s[..Dot(s)] == a && s[Dot(s) + 1..] == rest
  {
    var s := a + ("." + rest);
    assert s[|a|] == '.';
    forall i | 0 <= i < |a| ensures s[i] != '.' {
      assert a[i] in a;
    }
  }
}
