/** What the three client forms (`RegisterForm.jsx`, `LoginForm.jsx`, `BookingModal.jsx`)
    share: the email pattern `/^[^\s@]+@[^\s@]+\.[^\s@]+$/` and the `handleChange` update of
    the form's values and error messages. */
module Forms {
  import opened Options
  import Strings

  /** A character of the class `[^\s@]`. */
  predicate Plain(c: char)
  {
    !Strings.IsJsSpace(c) && c != '@'
  }

  predicate AllPlain(s: string)
  {
    forall k :: 0 <= k < |s| ==> Plain(s[k])
  }

  /** The strings the email pattern matches, read off the pattern: a run of plain
      characters, `@`, a run, a literal `.`, a run; no run is empty. */
  ghost predicate EmailPattern(s: string)
  {
    exists i, j :: Split(s, i, j)
  }

  /** The position of the first `c` in `s`. */
  function IndexOf(s: string, c: char): (r: Option<nat>)
    ensures r.Some? ==> r.value < |s| && s[r.value] == c && c !in s[..r.value]
    ensures r.None? ==> c !in s
  {
    if s == [] then None
    else if s[0] == c then Some(0)
    else match IndexOf(s[1..], c)
      case None => None
      case Some(i) => assert s[..i + 1] == [s[0]] + s[1..][..i]; Some(i + 1)
  }

  /** `validateEmail`, decided by a scan: no white space, a single `@` that is not the
      first character, and a `.` in the domain that is neither its first nor its last
      character. */
  predicate ValidateEmail(s: string)
  {
    (forall k :: 0 <= k < |s| ==> !Strings.IsJsSpace(s[k]))
    && match IndexOf(s, '@')
       case None => false
       case Some(i) =>
         var domain := s[i + 1..];
         i > 0 && '@' !in domain && |domain| >= 3 && '.' in domain[1..|domain| - 1]
  }

  /** The pattern's witness: `@` at `i`, `.` at `j`, plain runs around them. */
  ghost predicate Split(s: string, i: int, j: int)
  {
    0 < i && i + 1 < j < |s| - 1 && s[i] == '@' && s[j] == '.'
    && AllPlain(s[..i]) && AllPlain(s[i + 1..j]) && AllPlain(s[j + 1..])
  }

  /** No `@` and no white space between `a` and `b`. */
  predicate PlainBetween(s: string, a: int, b: int)
    requires 0 <= a <= b <= |s|
  {
    forall k :: a <= k < b ==> Plain(s[k])
  }

  lemma PlainSlice(s: string, a: int, b: int)
    requires 0 <= a <= b <= |s|
    ensures AllPlain(s[a..b]) <==> PlainBetween(s, a, b)
  {
    if PlainBetween(s, a, b) {
      forall k | 0 <= k < b - a ensures Plain(s[a..b][k]) {
        assert s[a..b][k] == s[a + k];
      }
    }
    if AllPlain(s[a..b]) {
      forall k | a <= k < b ensures Plain(s[k]) {
        assert s[a..b][k - a] == s[k];
      }
    }
  }

  /** The scan accepts a string exactly when the pattern matches it. */
  lemma {:induction false} EmailIff(s: string)
    ensures ValidateEmail(s) <==> EmailPattern(s)
  {
    if ValidateEmail(s) {
      var i, j := EmailFromScan(s);
      assert Split(s, i, j);
    }
    if EmailPattern(s) {
      var i, j :| Split(s, i, j);
      EmailToScan(s, i, j);
    }
  }

  lemma EmailFromScan(s: string) returns (i: int, j: int)
    requires ValidateEmail(s)
    ensures Split(s, i, j)
  {
    i := IndexOf(s, '@').value;
    var domain := s[i + 1..];
    var m :| 0 <= m < |domain| - 2 && domain[1..|domain| - 1][m] == '.';
    j := i + 2 + m;
    assert s[j] == '.';
    forall k | 0 <= k < |s| && k != i ensures Plain(s[k]) {
      if k < i {
        assert s[..i][k] == s[k];
      } else {
        assert domain[k - i - 1] == s[k];
      }
    }
    PlainSlice(s, 0, i);
    PlainSlice(s, i + 1, j);
    PlainSlice(s, j + 1, |s|);
    assert s[..i] == s[0..i] && s[j + 1..] == s[j + 1..|s|];
  }

  lemma EmailToScan(s: string, i: int, j: int)
    requires Split(s, i, j)
    ensures ValidateEmail(s)
  {
    PlainSlice(s, 0, i);
    PlainSlice(s, i + 1, j);
    PlainSlice(s, j + 1, |s|);
    assert s[..i] == s[0..i] && s[j + 1..] == s[j + 1..|s|];
    AtFirst(s, i);
    DomainScan(s, i, j);
  }

  lemma AtFirst(s: string, i: int)
    requires 0 <= i < |s| && s[i] == '@' && PlainBetween(s, 0, i)
    ensures IndexOf(s, '@') == Some(i)
  {
    assert s[i] in s;
  }

  lemma DomainScan(s: string, i: int, j: int)
    requires 0 < i && i + 1 < j < |s| - 1 && s[i] == '@' && s[j] == '.'
    requires PlainBetween(s, 0, i) && PlainBetween(s, i + 1, j) && PlainBetween(s, j + 1, |s|)
    requires IndexOf(s, '@') == Some(i)
    ensures ValidateEmail(s)
  {
    var domain := s[i + 1..];
    forall k | 0 <= k < |s| ensures !Strings.IsJsSpace(s[k]) {
      if k != i && k != j {
        assert Plain(s[k]);
      }
    }
    assert '@' !in domain by {
      forall k | 0 <= k < |domain| ensures domain[k] != '@' {
        assert domain[k] == s[i + 1 + k];
        if i + 1 + k != j {
          assert Plain(s[i + 1 + k]);
        }
      }
    }
    assert domain[1..|domain| - 1][j - i - 2] == '.';
  }

  /** One step of `validateForm`: the field gets the "required" message when its value is
      missing, otherwise the format message when it is malformed, otherwise none; the
      other fields' messages stay as they were. */
  method Check<F(==)>(errors: map<F, string>, f: F, missing: bool, malformed: bool,
                      required: string, format: string) returns (r: map<F, string>)
    requires f !in errors
    ensures f in r <==> missing || malformed
    ensures f in r ==> r[f] == if missing then required else format
    ensures forall g :: g != f ==> (g in r <==> g in errors)
    ensures forall g :: g != f && g in errors ==> r[g] == errors[g]
  {
    r := errors;
    if missing {
      r := r[f := required];
    } else if malformed {
      r := r[f := format];
    }
  }

  /** The values of a form and the error messages shown under its fields. */
  class FormState<F(==)> {
    var formData: map<F, string>
    var errors: map<F, string>

    constructor (initial: map<F, string>)
      ensures formData == initial && errors == map[]
    {
      formData := initial;
      errors := map[];
    }

    /** `setErrors(newErrors)` at the end of `validateForm`. */
    method SetErrors(newErrors: map<F, string>)
      modifies this
      ensures errors == newErrors && formData == old(formData)
    {
      errors := newErrors;
    }

    /** `handleChange`: the named field takes the typed value, and the message under it,
        if one is shown, becomes empty; no other field and no other message changes. */
    method HandleChange(name: F, value: string)
      modifies this
      ensures formData == old(formData)[name := value]
      ensures errors.Keys == old(errors).Keys
      ensures name in errors ==> errors[name] == ""
      ensures forall f :: f in errors && f != name ==> errors[f] == old(errors)[f]
    {
      formData := formData[name := value];
      if name in errors && errors[name] != "" {
        errors := errors[name := ""];
      }
    }
  }
}
