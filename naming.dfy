/** The date-shape check and the file-name builder of `rename_and_save_files`. */
module Naming {
  import opened Strings
  import opened Decimal
  import opened Uploads

  /** The message of the `ValueError` raised for a badly shaped date. */
  const DateFormatMessage: string := "Date must be in the format YYYY-MM-DD"

  /** `year, month, day = date.split('-')` succeeds and the three parts have
      lengths 4, 2 and 2. Only lengths are checked: there is no digit test and
      no calendar test. */
  predicate DateShapeOk(date: string)
  {
    var parts := Split(date, '-');
    |parts| == 3 && |parts[0]| == 4 && |parts[1]| == 2 && |parts[2]| == 2
  }

  /** A date passes exactly when it is ten characters long, has dashes at
      positions 4 and 7 and no dash anywhere else; so "9999-99-99" and
      "abcd-ef-gh" pass while "24-3-5" and "2024-03-05-" do not. */
  lemma DateShapeCharacterization(date: string)
    ensures DateShapeOk(date) <==>
      && |date| == 10
      && date[4] == '-' && date[7] == '-'
      && forall i :: 0 <= i < 10 && i != 4 && i != 7 ==> date[i] != '-'
  {
    var parts := Split(date, '-');
    if DateShapeOk(date) {
      var p0, p1, p2 := parts[0], parts[1], parts[2];
      JoinOfSplit(date, '-');
      assert parts == [p0, p1, p2];
      JoinThree(p0, p1, p2, '-');
      forall i | 0 <= i < 10 && i != 4 && i != 7
        ensures date[i] != '-'
      {
        if i < 4 {
          assert date[i] == p0[i];
        } else if i < 7 {
          assert date[i] == p1[i - 5];
        } else {
          assert date[i] == p2[i - 8];
        }
      }
    } else if |date| == 10 && date[4] == '-' && date[7] == '-' {
      if forall i :: 0 <= i < 10 && i != 4 && i != 7 ==> date[i] != '-' {
        var p0, p1, p2 := date[..4], date[5..7], date[8..];
        assert forall j :: 0 <= j < 4 ==> p0[j] == date[j];
        assert forall j :: 0 <= j < 2 ==> p1[j] == date[j + 5];
        assert forall j :: 0 <= j < 2 ==> p2[j] == date[j + 8];
        var pieces := [p0, p1, p2];
        JoinThree(p0, p1, p2, '-');
        assert date == Join(pieces, '-');
        SplitOfJoin(pieces, '-');
        assert false;
      }
    }
  }

  /** The f-string `f"{year}-{month}-{day} ({index}) {location}.{ext}"`. */
  function NewName(year: string, month: string, day: string, index: int,
                   location: string, ext: string): string
  {
    year + "-" + month + "-" + day + " (" + IntToDecimal(index) + ") " + location + "." + ext
  }

  /** The name the renamer gives the file `filename` under sequence number
      `index`, from the parts of an accepted date. */
  function TargetName(date: string, index: int, location: string, filename: string): string
    requires DateShapeOk(date)
    requires '.' in filename
  {
    var parts := Split(date, '-');
    NewName(parts[0], parts[1], parts[2], index, location, Extension(filename))
  }

  /** A generated name starts with the date string exactly as given (its
      three parts re-joined with dashes), then the number in plain decimal in
      parentheses, the location, a dot and the lower-cased extension. */
  lemma TargetNameLayout(date: string, index: int, location: string, filename: string)
    requires DateShapeOk(date)
    requires '.' in filename
    ensures TargetName(date, index, location, filename)
         == date + " (" + IntToDecimal(index) + ") " + location + "." + Extension(filename)
  {
    var parts := Split(date, '-');
    JoinOfSplit(date, '-');
    assert parts == [parts[0], parts[1], parts[2]];
    JoinThree(parts[0], parts[1], parts[2], '-');
  }

  /** Where the sequence number starts in a generated name: after the
      ten-character date and " (". */
  const IndexOffset: nat := 12

  /** Reads the sequence number back out of a name: the numeral between
      position 12 and the first ')' after it. */
  function IndexOf(name: string): int
  {
    if |name| < IndexOffset then 0 else ParseInt(TakeUntil(name[IndexOffset..], ')'))
  }

  /** Reading the number back from a ten-character date, " (", a numeral
      and ")" followed by anything. */
  lemma IndexOfNumbered(date: string, index: int, tail: string)
    requires |date| == 10
    ensures IndexOf(date + " (" + IntToDecimal(index) + ")" + tail) == index
  {
    var digits := IntToDecimal(index);
    var name := date + " (" + digits + ")" + tail;
    assert name[IndexOffset..] == digits + [')'] + tail;
    assert ')' !in digits by {
      forall k | 0 <= k < |digits| ensures digits[k] != ')' {
      }
    }
    TakeUntilStop(digits, ')', tail);
    ParseIntOfDecimal(index);
  }

  /** The sequence number can be recovered from every generated name,
      whatever the date, location and extension. */
  lemma IndexOfTargetName(date: string, index: int, location: string, filename: string)
    requires DateShapeOk(date)
    requires '.' in filename
    ensures IndexOf(TargetName(date, index, location, filename)) == index
  {
    var digits := IntToDecimal(index);
    var ext := Extension(filename);
    TargetNameLayout(date, index, location, filename);
    assert |date| == 10 by {
      DateShapeCharacterization(date);
    }
    Regroup(date, digits, location, ext);
    IndexOfNumbered(date, index, " " + location + "." + ext);
  }

  /** The generated name read as date, " (", numeral, ")" and a tail. */
  lemma Regroup(date: string, digits: string, location: string, ext: string)
    ensures date + " (" + digits + ") " + location + "." + ext
         == date + " (" + digits + ")" + (" " + location + "." + ext)
  {
  }

  /** Two generated names with different sequence numbers never coincide,
      even for different dates, locations or extensions; in particular the
      names of one batch are pairwise distinct. */
  lemma TargetNamesDistinct(date1: string, index1: int, location1: string, filename1: string,
                            date2: string, index2: int, location2: string, filename2: string)
    requires DateShapeOk(date1) && DateShapeOk(date2)
    requires '.' in filename1 && '.' in filename2
    requires index1 != index2
    ensures TargetName(date1, index1, location1, filename1)
         != TargetName(date2, index2, location2, filename2)
  {
    IndexOfTargetName(date1, index1, location1, filename1);
    IndexOfTargetName(date2, index2, location2, filename2);
  }

  /** "24-3-5" has parts of the wrong lengths and is refused. */
  lemma ShortDateRejected()
    ensures !DateShapeOk("24-3-5")
  {
    DateShapeCharacterization("24-3-5");
  }

  /** "2024-03-05" has the accepted shape. */
  lemma ExampleDateAccepted()
    ensures DateShapeOk("2024-03-05")
  {
    DateShapeCharacterization("2024-03-05");
  }
}
