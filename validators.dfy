/** The strong-password rule (`SenhaForteValidator.validate`). */
module Validators {

  /** The four character classes, in the order they are checked. */
  datatype CharClass = Uppercase | Lowercase | Digit | Special

  const CheckOrder: seq<CharClass> := [Uppercase, Lowercase, Digit, Special]

  /** The characters of `[!@#$%^&*(),.?":{}|<>]`. */
  const SpecialChars: set<char> :=
    {'!', '@', '#', '$', '%', '^', '&', '*', '(', ')', ',', '.', '?', '"', ':', '{', '}', '|', '<', '>'}

  predicate InClass(c: char, cls: CharClass)
  {
    match cls
    case Uppercase => 'A' <= c <= 'Z'
    case Lowercase => 'a' <= c <= 'z'
    case Digit => '0' <= c <= '9'
    case Special => c in SpecialChars
  }

  /** `re.search` of the class's pattern finds a match. */
  predicate Has(password: string, cls: CharClass)
  {
    exists i :: 0 <= i < |password| && InClass(password[i], cls)
  }

  predicate Strong(password: string)
  {
    forall cls :: Has(password, cls)
  }

  function Message(cls: CharClass): string
  {
    match cls
    case Uppercase => "A senha deve conter pelo menos uma letra maiúscula."
    case Lowercase => "A senha deve conter pelo menos uma letra minúscula."
    case Digit => "A senha deve conter pelo menos um número."
    case Special => "A senha deve conter pelo menos um caractere especial (!@#$%^&*...)."
  }

  /** Position of a class in the checking order. */
  function Rank(cls: CharClass): nat
  {
    match cls
    case Uppercase => 0
    case Lowercase => 1
    case Digit => 2
    case Special => 3
  }

  predicate RankIncreasing(classes: seq<CharClass>)
  {
    forall i, j :: 0 <= i < j < |classes| ==> Rank(classes[i]) < Rank(classes[j])
  }

  /** One check: the class when `password` lacks it, nothing otherwise. */
  function Check(password: string, cls: CharClass): (r: seq<CharClass>)
    ensures r == [] <==> Has(password, cls)
    ensures forall x :: x in r <==> x == cls && !Has(password, cls)
  {
    if Has(password, cls) then [] else [cls]
  }

  /** The classes `password` lacks, in checking order. */
  function Missing(password: string): (r: seq<CharClass>)
    ensures forall cls :: cls in r <==> !Has(password, cls)
    ensures RankIncreasing(r)
  {
    var u, l, d, s := Check(password, Uppercase), Check(password, Lowercase), Check(password, Digit), Check(password, Special);
    var r := u + l + d + s;
    assert forall x :: x in r <==> x in u || x in l || x in d || x in s;
    RankIncreasingAppend(u, l, 1);
    RankIncreasingAppend(u + l, d, 2);
    RankIncreasingAppend(u + l + d, s, 3);
    r
  }

  /** Two rank-increasing runs, the first entirely below rank `k` and the second at or
      above it, concatenate to a rank-increasing run. */
  lemma RankIncreasingAppend(a: seq<CharClass>, b: seq<CharClass>, k: nat)
    requires RankIncreasing(a) && RankIncreasing(b)
    requires forall x :: x in a ==> Rank(x) < k
    requires forall x :: x in b ==> k <= Rank(x)
    ensures RankIncreasing(a + b)
  {
    var c := a + b;
    forall i, j | 0 <= i < j < |c| ensures Rank(c[i]) < Rank(c[j]) {
      if j < |a| {
        assert c[i] == a[i] && c[j] == a[j];
      } else if i < |a| {
        assert c[i] in a && c[j] in b;
      } else {
        assert c[i] == b[i - |a|] && c[j] == b[j - |a|];
      }
    }
  }

  function Messages(classes: seq<CharClass>): (r: seq<string>)
    ensures |r| == |classes|
    ensures forall i :: 0 <= i < |classes| ==> r[i] == Message(classes[i])
  {
    seq(|classes|, i requires 0 <= i < |classes| => Message(classes[i]))
  }

  /** The message list of one check. */
  function Report(password: string, cls: CharClass): (r: seq<string>)
    ensures r == Messages(Check(password, cls))
  {
    if Has(password, cls) then [] else [Message(cls)]
  }

  lemma MessagesAppend(a: seq<CharClass>, b: seq<CharClass>)
    ensures Messages(a + b) == Messages(a) + Messages(b)
  {
  }

  /** `validate`: one message per missing class, uppercase, lowercase, digit, special;
      an empty list means the password is accepted (nothing is raised). */
  method Validate(password: string) returns (errors: seq<string>)
    ensures errors == Messages(Missing(password))
    ensures errors == [] <==> Strong(password)
  {
    errors := [];
    if !Has(password, Uppercase) {
      errors := errors + [Message(Uppercase)];
    }
    ghost var sofar := Report(password, Uppercase);
    assert errors == sofar;
    if !Has(password, Lowercase) {
      errors := errors + [Message(Lowercase)];
    }
    sofar := sofar + Report(password, Lowercase);
    assert errors == sofar;
    if !Has(password, Digit) {
      errors := errors + [Message(Digit)];
    }
    sofar := sofar + Report(password, Digit);
    assert errors == sofar;
    if !Has(password, Special) {
      errors := errors + [Message(Special)];
    }
    sofar := sofar + Report(password, Special);
    assert errors == sofar;
    ReportsAreMessages(password);
    StrongIffNothingMissing(password);
  }

  lemma ReportsAreMessages(password: string)
    ensures Messages(Missing(password))
         == Report(password, Uppercase) + Report(password, Lowercase)
          + Report(password, Digit) + Report(password, Special)
  {
    var u, l, d, s := Check(password, Uppercase), Check(password, Lowercase), Check(password, Digit), Check(password, Special);
    MessagesAppend(u + l + d, s);
    MessagesAppend(u + l, d);
    MessagesAppend(u, l);
  }

  /** Nothing is reported exactly when all four classes are present. */
  lemma StrongIffNothingMissing(password: string)
    ensures Missing(password) == [] <==> Strong(password)
  {
    if Missing(password) != [] {
      assert Missing(password)[0] in Missing(password);
    }
  }

  /** No message is reported twice, and the messages follow the checking order. */
  lemma MissingMessagesDistinct(password: string)
    ensures forall i, j :: 0 <= i < j < |Messages(Missing(password))| ==>
      Messages(Missing(password))[i] != Messages(Missing(password))[j]
  {
    var classes := Missing(password);
    forall i, j | 0 <= i < j < |classes| ensures Messages(classes)[i] != Messages(classes)[j] {
      MessageInjective(classes[i], classes[j]);
    }
  }

  /** Each class has its own message. */
  lemma MessageInjective(a: CharClass, b: CharClass)
    ensures Message(a) == Message(b) <==> a == b
  {
  }

  /** "abc" lacks an uppercase letter, a digit and a special character, and all three
      are reported together. */
  lemma LowercaseOnlyExample()
    ensures Missing("abc") == [Uppercase, Digit, Special]
  {
    assert Has("abc", Lowercase) by { assert InClass("abc"[0], Lowercase); }
    assert !Has("abc", Special) by {
      forall i | 0 <= i < 3 ensures !InClass("abc"[i], Special) {
        assert "abc"[i] in {'a', 'b', 'c'};
      }
    }
  }

  /** "Abc1!" is accepted. */
  lemma StrongExample()
    ensures Strong("Abc1!")
  {
    var p := "Abc1!";
    forall cls ensures Has(p, cls) {
      match cls
      case Uppercase => assert InClass(p[0], cls);
      case Lowercase => assert InClass(p[1], cls);
      case Digit => assert InClass(p[3], cls);
      case Special => assert InClass(p[4], cls);
    }
  }
}
