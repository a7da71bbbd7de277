/**
 * The string transformation inside `get_timestamp` (utils/utils.py):
 * `re.sub(r'[ .]', '_', now.replace(':', ''))`, applied to the text of a
 * timestamp given as input.
 */
module Utils {
  import opened Strings

  /** `re.sub(r'[ .]', '_', s)`: every space and every dot becomes an underscore. */
  function SubSpaceDot(s: string): (r: string)
    ensures |r| == |s|
    ensures forall i :: 0 <= i < |s| ==> r[i] == (if s[i] == ' ' || s[i] == '.' then '_' else s[i])
  {
    if s == [] then [] else [if s[0] == ' ' || s[0] == '.' then '_' else s[0]] + SubSpaceDot(s[1..])
  }

  /** The value `get_timestamp` returns when `str(datetime.now())` is `now`. */
  function Timestamp(now: string): string {
    SubSpaceDot(Replace(now, ":", ""))
  }

  /** Reference reading, one character at a time: drop `:`, turn ` ` and `.` into `_`, keep the rest. */
  function Sanitized(s: string): string {
    if s == [] then []
    else if s[0] == ':' then Sanitized(s[1..])
    else if s[0] == ' ' || s[0] == '.' then "_" + Sanitized(s[1..])
    else [s[0]] + Sanitized(s[1..])
  }

  lemma {:induction false} SubSpaceDotWithout(s: string)
    ensures SubSpaceDot(Without(s, ':')) == Sanitized(s)
  {
    if s != [] {
      SubSpaceDotWithout(s[1..]);
      if s[0] != ':' {
        var w := Without(s[1..], ':');
        assert Without(s, ':') == [s[0]] + w;
        assert ([s[0]] + w)[1..] == w;
      }
    }
  }

  /** The chain of `replace` and `re.sub` is exactly the character-by-character reading. */
  lemma TimestampIsSanitized(now: string)
    ensures Timestamp(now) == Sanitized(now)
  {
    ReplaceCharByNothing(now, ':');
    assert ":" == [':'];
    SubSpaceDotWithout(now);
  }

  /** The result holds no `:`, no space and no `.`. */
  lemma TimestampIsClean(now: string)
    ensures ':' !in Timestamp(now) && ' ' !in Timestamp(now) && '.' !in Timestamp(now)
  {
    ReplaceCharByNothing(now, ':');
    assert ":" == [':'];
    var w := Without(now, ':');
    var r := Timestamp(now);
    assert forall i :: 0 <= i < |r| ==> r[i] != ':' && r[i] != ' ' && r[i] != '.' by {
      forall i | 0 <= i < |r| ensures r[i] != ':' && r[i] != ' ' && r[i] != '.' {
        assert w[i] in w;
      }
    }
  }

  /** Only the colons disappear: the length drops by their number. */
  lemma TimestampLength(now: string)
    ensures |Timestamp(now)| == |now| - Count(now, ':')
  {
    ReplaceCharByNothing(now, ':');
    assert ":" == [':'];
    WithoutLength(now, ':');
  }

  /** On a string with no `:`, space or `.`, the reference reading changes nothing. */
  lemma {:induction false} SanitizedOfClean(s: string)
    requires ':' !in s && ' ' !in s && '.' !in s
    ensures Sanitized(s) == s
  {
    if s != [] {
      assert s[0] in s;
      assert forall c :: c in s[1..] ==> c in s;
      SanitizedOfClean(s[1..]);
      assert [s[0]] + s[1..] == s;
    }
  }

  /** Sanitising a sanitised timestamp changes nothing. */
  lemma TimestampIdempotent(now: string)
    ensures Timestamp(Timestamp(now)) == Timestamp(now)
  {
    var t := Timestamp(now);
    TimestampIsClean(now);
    TimestampIsSanitized(t);
    SanitizedOfClean(t);
  }

  /** The reference reading works piece by piece. */
  lemma {:induction false} SanitizedAppend(a: string, b: string)
    ensures Sanitized(a + b) == Sanitized(a) + Sanitized(b)
  {
    if a != [] {
      assert (a + b)[0] == a[0] && (a + b)[1..] == a[1..] + b;
      SanitizedAppend(a[1..], b);
    } else {
      assert a + b == b;
    }
  }

  lemma SanitizedOfPieces(a: string, b: string, c: string, d: string, e: string)
    ensures Sanitized(a + b + c + d + e) == Sanitized(a) + Sanitized(b) + Sanitized(c) + Sanitized(d) + Sanitized(e)
  {
    SanitizedAppend(a + b + c + d, e);
    SanitizedAppend(a + b + c, d);
    SanitizedAppend(a + b, c);
    SanitizedAppend(a, b);
  }

  /** The reference reading of the sanitised pieces of the example below. */
  lemma SanitizedDate()
    ensures Sanitized("2024-01-02") == "2024-01-02"
  {
    SanitizedOfClean("2024-01-02");
  }

  lemma SanitizedTime()
    ensures Sanitized(" 03") == "_03" && Sanitized(":04") == "04"
  {
  }

  lemma SanitizedSeconds()
    ensures Sanitized(":05") == "05" && Sanitized(".123456") == "_123456"
  {
    assert ".123456"[1..] == "123456";
    SanitizedOfClean("123456");
  }

  lemma TimestampOfPieces()
    ensures Timestamp("2024-01-02" + " 03" + ":04" + ":05" + ".123456") == "2024-01-02" + "_03" + "04" + "05" + "_123456"
  {
    TimestampIsSanitized("2024-01-02" + " 03" + ":04" + ":05" + ".123456");
    SanitizedOfPieces("2024-01-02", " 03", ":04", ":05", ".123456");
    SanitizedDate();
    SanitizedTime();
    SanitizedSeconds();
  }

  /** A typical `str(datetime.now())` value and what `get_timestamp` makes of it. */
  lemma TimestampExample()
    ensures Timestamp("2024-01-02 03:04:05.123456") == "2024-01-02_030405_123456"
  {
    assert "2024-01-02 03:04:05.123456" == "2024-01-02" + " 03" + ":04" + ":05" + ".123456";
    TimestampOfPieces();
    assert "2024-01-02" + "_03" + "04" + "05" + "_123456" == "2024-01-02_030405_123456";
  }
}
