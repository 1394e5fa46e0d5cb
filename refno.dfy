/** The identifier extractor: the reference number is the first run of nine
    consecutive digits in a document's file name (`re.search(r'\d{9}', name)`). */
module Refno {
  import opened Text

  const RefnoWidth: nat := 9

  /** Nine consecutive ASCII digits start at position `i` of `name`. */
  predicate RefnoAt(name: string, i: nat) {
    i + RefnoWidth <= |name| && forall k :: i <= k < i + RefnoWidth ==> IsDigit(name[k])
  }

  /** The leftmost position at which nine digits start, if there is one. */
  function RefnoStart(name: string): (r: Option<nat>)
    ensures r.Some? ==> RefnoAt(name, r.value)
    ensures r.Some? ==> forall j :: 0 <= j < r.value ==> !RefnoAt(name, j)
    ensures r.None? <==> forall j :: 0 <= j < |name| ==> !RefnoAt(name, j)
  {
    var atRun := (i: nat) => RefnoAt(name, i);
    assert forall j: nat :: atRun(j) == RefnoAt(name, j);
    FirstFrom(atRun, 0, |name|)
  }

  /** `find_refno`: the nine characters at the leftmost nine-digit run, or
      None when no position starts nine digits. */
  function FindRefno(name: string): (r: Option<string>)
    ensures r.None? <==> forall j :: 0 <= j < |name| ==> !RefnoAt(name, j)
    ensures r.Some? ==> |r.value| == RefnoWidth && forall k :: 0 <= k < |r.value| ==> IsDigit(r.value[k])
    ensures r.Some? ==> exists i: nat :: RefnoAt(name, i) && r.value == name[i..i + RefnoWidth] &&
                                    forall j :: 0 <= j < i ==> !RefnoAt(name, j)
  {
    match RefnoStart(name)
    case None => None
    case Some(i) => Some(name[i..i + RefnoWidth])
  }

  /** Whatever the shape of the rest of the name, the first position that
      starts nine digits determines the result. */
  lemma FirstRunIsResult(name: string, i: nat)
    requires RefnoAt(name, i)
    requires forall j :: 0 <= j < i ==> !RefnoAt(name, j)
    ensures FindRefno(name) == Some(name[i..i + RefnoWidth])
  {
    var r := RefnoStart(name);
    assert r.Some?;
  }

  /** A longer digit run, such as twelve digits, yields its first nine. */
  lemma {:induction false} LongRunYieldsFirstNine(pre: string, digits: string, post: string)
    requires forall j :: 0 <= j < |pre| ==> !IsDigit(pre[j])
    requires |digits| >= RefnoWidth && forall k :: 0 <= k < |digits| ==> IsDigit(digits[k])
    ensures FindRefno(pre + digits + post) == Some(digits[..RefnoWidth])
  {
    var name := pre + digits + post;
    var i := |pre|;
    assert RefnoAt(name, i) by {
      forall k | i <= k < i + RefnoWidth ensures IsDigit(name[k]) {
        assert name[k] == digits[k - i];
      }
    }
    forall j | 0 <= j < i ensures !RefnoAt(name, j) {
      assert name[j] == pre[j];
    }
    FirstRunIsResult(name, i);
    assert name[i..i + RefnoWidth] == digits[..RefnoWidth];
  }

  /** A typical statement file name yields its nine-digit reference number. */
  lemma StatementFileName()
    ensures FindRefno("250000001_stmt.pdf") == Some("250000001")
  {
    var name := "250000001_stmt.pdf";
    assert RefnoAt(name, 0);
    FirstRunIsResult(name, 0);
    assert name[0..RefnoWidth] == "250000001";
  }

  /** A twelve-digit run yields its first nine digits. */
  lemma TwelveDigitName()
    ensures FindRefno("123456789012.pdf") == Some("123456789")
  {
    LongRunYieldsFirstNine("", "123456789012", ".pdf");
    assert "" + "123456789012" + ".pdf" == "123456789012.pdf";
    assert "123456789012"[..RefnoWidth] == "123456789";
  }

  /** A name with no nine-digit run, such as one holding only eight digits, has no reference number. */
  lemma EightDigitsAreNotEnough(pre: string, digits: string, post: string)
    requires forall j :: 0 <= j < |pre| ==> !IsDigit(pre[j])
    requires |digits| < RefnoWidth
    requires forall j :: 0 <= j < |post| ==> !IsDigit(post[j])
    ensures FindRefno(pre + digits + post) == None
  {
    var name := pre + digits + post;
    forall j | 0 <= j < |name| ensures !RefnoAt(name, j) {
      if j < |pre| {
        assert name[j] == pre[j];
      } else if j + RefnoWidth <= |name| {
        var k := j + RefnoWidth - 1;
        assert name[k] == post[k - |pre| - |digits|];
      }
    }
  }
}
