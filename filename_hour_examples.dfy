/** Worked filenames for `extractHourFromFilename`. */
module FilenameHourExamples {
  import opened Wrappers
  import opened Text
  import opened FilenameHour

  /** "12hour.mp3": the first pattern gives 12. */
  lemma TwelveHour()
    ensures HourFromFilename("12hour.mp3") == Some(12)
  {
    var s := "12hour.mp3";
    var p := Patterns[0];
    assert p == DigitsBefore("hour");
    assert s[2..6] == "hour";
    assert LiteralAt(s, 2, "hour");
    assert IsDigit(s[0]) && IsDigit(s[1]);
    assert s[0..2] == "12";
    assert MatchAt(p, s, 0) == Some("12");
    assert DigitsValue("12") == 12 by { assert "12"[..1] == "1"; }
    assert MatchedHour(Patterns[0], s) == Some(12);
    PatternOrder(s, Patterns, 0);
  }

  /** "123hour.mp3": the match starts at the leftmost position that works, "23", after "12" fails. */
  lemma LeftmostTwoDigits()
    ensures HourFromFilename("123hour.mp3") == Some(23)
  {
    var s := "123hour.mp3";
    var p := Patterns[0];
    assert p == DigitsBefore("hour");
    assert s[3..7] == "hour";
    assert !LiteralAt(s, 2, "hour") by { assert Lower(s[2..6])[0] == '3'; assert Lower("hour")[0] == 'h'; }
    assert !LiteralAt(s, 1, "hour") by { assert Lower(s[1..5])[0] == '2'; assert Lower("hour")[0] == 'h'; }
    assert MatchAt(p, s, 0).None?;
    assert LiteralAt(s, 3, "hour");
    assert s[1..3] == "23";
    assert MatchAt(p, s, 1) == Some("23");
    assert LeftmostFrom(p, s, 0, 1);
    FirstMatchIsLeftmost(p, s, 0, 1);
    assert DigitsValue("23") == 23 by { assert "23"[..1] == "2"; }
    assert MatchedHour(Patterns[0], s) == Some(23);
    PatternOrder(s, Patterns, 0);
  }

  /** "99hour_5.mp3": the first pattern matches "99", which is no hour. */
  lemma OutOfRangeFirstPattern()
    ensures MatchedHour(Patterns[0], "99hour_5.mp3").None?
  {
    var s := "99hour_5.mp3";
    var p := Patterns[0];
    assert p == DigitsBefore("hour");
    assert s[2..6] == "hour";
    assert LiteralAt(s, 2, "hour");
    assert s[0..2] == "99";
    assert MatchAt(p, s, 0) == Some("99");
    assert DigitsValue("99") == 99 by { assert "99"[..1] == "9"; }
  }

  /** In "99hour_5.mp3" the "." pattern matches at none of the first seven positions. */
  lemma DotPatternSkipsPrefix()
    ensures forall k :: 0 <= k < 7 ==> MatchAt(DigitsBefore("."), "99hour_5.mp3", k).None?
  {
    var s := "99hour_5.mp3";
    assert !LiteralAt(s, 1, ".") by { assert Lower(s[1..2])[0] == '9'; }
    assert !LiteralAt(s, 2, ".") by { assert Lower(s[2..3])[0] == 'h'; }
    forall k | 0 <= k < 7
      ensures MatchAt(DigitsBefore("."), s, k).None?
    {
      if k >= 2 {
        assert !IsDigit(s[k]);
      } else {
        assert !IsDigit(s[2]);
      }
    }
  }

  /** In "99hour_5.mp3" the "." pattern matches "5" at position 7. */
  lemma DotPatternAtSeven()
    ensures MatchAt(DigitsBefore("."), "99hour_5.mp3", 7) == Some("5")
  {
    var s := "99hour_5.mp3";
    assert !LiteralAt(s, 9, ".") by { assert Lower(s[9..10])[0] == 'm'; }
    assert LiteralAt(s, 8, ".") by { assert s[8..9] == "."; }
    assert s[7..8] == "5";
  }

  /** ... and the "." pattern matches "5", the digit just before the dot. */
  lemma SecondPatternFindsFive()
    ensures MatchedHour(Patterns[1], "99hour_5.mp3") == Some(5)
  {
    var s := "99hour_5.mp3";
    var q := Patterns[1];
    assert q == DigitsBefore(".");
    DotPatternSkipsPrefix();
    DotPatternAtSeven();
    assert LeftmostFrom(q, s, 0, 7);
    FirstMatchIsLeftmost(q, s, 0, 7);
    assert FirstMatch(q, s) == Some("5");
    assert DigitsValue("5") == 5;
  }

  /** ... so an out-of-range match falls through to the next pattern. */
  lemma FallsThroughToSecondPattern()
    ensures HourFromFilename("99hour_5.mp3") == Some(5)
  {
    var s := "99hour_5.mp3";
    OutOfRangeFirstPattern(); SecondPatternFindsFive();
    assert forall j :: 0 <= j < 1 ==> MatchedHour(Patterns[j], s).None?;
    PatternOrder(s, Patterns, 1);
  }
}
