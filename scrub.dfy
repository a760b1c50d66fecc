/** The sensitive-data passes of `RemoveSensitiveDataStep`. Each regular
    expression is a pattern with an abstract `find` and `replaceAll`; the
    step runs five of them in a fixed order, each on the previous pass's
    output, and flags a text when any pass found something. */
module SensitiveData {
  import opened Common

  /** `pattern.matcher(s).find()` and `pattern.matcher(s).replaceAll(r)`. */
  datatype Pattern = Pattern(find: string -> bool, replaceAll: (string, string) -> string)

  /** The five compiled patterns of the step. */
  datatype Patterns = Patterns(cpf: Pattern, cnpj: Pattern, email: Pattern, phone: Pattern, card: Pattern)

  datatype Category = Cpf | Cnpj | Email | Phone | Card

  /** The order the passes run in. */
  const Order: seq<Category> := [Cpf, Cnpj, Email, Phone, Card]

  function PatternFor(p: Patterns, c: Category): Pattern {
    match c
    case Cpf => p.cpf
    case Cnpj => p.cnpj
    case Email => p.email
    case Phone => p.phone
    case Card => p.card
  }

  /** The replacement text of each pass. */
  function Placeholder(c: Category): string {
    match c
    case Cpf => "[CPF REMOVIDO]"
    case Cnpj => "[CNPJ REMOVIDO]"
    case Email => "[EMAIL REMOVIDO]"
    case Phone => "[TELEFONE REMOVIDO]"
    case Card => "[CARTÃO REMOVIDO]"
  }

  /** One pass: when the pattern finds a match, replace all matches and
      raise the flag; otherwise leave both alone. */
  function ApplyPass(p: Patterns, c: Category, text: string, flag: bool): (string, bool) {
    var pat := PatternFor(p, c);
    if pat.find(text) then (pat.replaceAll(text, Placeholder(c)), true) else (text, flag)
  }

  /** The passes `cs`, in order, starting from `text` and a lowered flag. */
  function ScrubWith(p: Patterns, text: string, cs: seq<Category>): (string, bool) {
    if cs == [] then (text, false)
    else
      var prev := ScrubWith(p, text, cs[..|cs| - 1]);
      ApplyPass(p, cs[|cs| - 1], prev.0, prev.1)
  }

  /** The five passes of the step on one text: (sanitized, hasSensitive). */
  function Scrub(p: Patterns, text: string): (string, bool) {
    ScrubWith(p, text, Order)
  }

  /** Pass `k` of `cs` finds a match in the text it is given, which is the
      output of the passes before it. */
  predicate PassFinds(p: Patterns, text: string, cs: seq<Category>, k: nat)
    requires k < |cs|
  {
    PatternFor(p, cs[k]).find(ScrubWith(p, text, cs[..k]).0)
  }

  /** The flag is raised exactly when some pass finds a match. */
  lemma {:induction false} FlagIffSomePassMatched(p: Patterns, text: string, cs: seq<Category>)
    ensures ScrubWith(p, text, cs).1 <==> exists k: nat :: k < |cs| && PassFinds(p, text, cs, k)
  {
    if cs != [] {
      var n := |cs| - 1;
      var front := cs[..n];
      FlagIffSomePassMatched(p, text, front);
      assert front == cs[..n];
      forall k: nat | k < n ensures PassFinds(p, text, front, k) == PassFinds(p, text, cs, k) {
        assert front[k] == cs[k] && front[..k] == cs[..k];
      }
      if ScrubWith(p, text, cs).1 {
        if !PassFinds(p, text, cs, n) {
          var k: nat :| k < n && PassFinds(p, text, front, k);
          assert PassFinds(p, text, cs, k);
        }
      } else {
        assert !PassFinds(p, text, cs, n);
        forall k: nat | k < |cs| ensures !PassFinds(p, text, cs, k) {
          if k < n {
            assert !PassFinds(p, text, front, k);
          }
        }
      }
    }
  }

  /** A text in which no pattern finds anything comes out unchanged and
      unflagged. */
  lemma {:induction false} NoMatchUnchanged(p: Patterns, text: string, cs: seq<Category>)
    requires forall k :: 0 <= k < |cs| ==> !PatternFor(p, cs[k]).find(text)
    ensures ScrubWith(p, text, cs) == (text, false)
  {
    if cs != [] {
      NoMatchUnchanged(p, text, cs[..|cs| - 1]);
    }
  }

  /** An unflagged text is unchanged. */
  lemma {:induction false} UnflaggedIsUnchanged(p: Patterns, text: string, cs: seq<Category>)
    ensures !ScrubWith(p, text, cs).1 ==> ScrubWith(p, text, cs).0 == text
  {
    if cs != [] {
      UnflaggedIsUnchanged(p, text, cs[..|cs| - 1]);
    }
  }

  /** The five passes written out as the step's body does, one `if` per
      pattern. */
  method ScrubOneText(p: Patterns, text: string) returns (sanitized: string, hasSensitive: bool)
    ensures (sanitized, hasSensitive) == Scrub(p, text)
  {
    sanitized := text;
    hasSensitive := false;
    if p.cpf.find(sanitized) {
      sanitized := p.cpf.replaceAll(sanitized, "[CPF REMOVIDO]");
      hasSensitive := true;
    }
    ghost var afterCpf := (sanitized, hasSensitive);
    if p.cnpj.find(sanitized) {
      sanitized := p.cnpj.replaceAll(sanitized, "[CNPJ REMOVIDO]");
      hasSensitive := true;
    }
    ghost var afterCnpj := (sanitized, hasSensitive);
    if p.email.find(sanitized) {
      sanitized := p.email.replaceAll(sanitized, "[EMAIL REMOVIDO]");
      hasSensitive := true;
    }
    ghost var afterEmail := (sanitized, hasSensitive);
    if p.phone.find(sanitized) {
      sanitized := p.phone.replaceAll(sanitized, "[TELEFONE REMOVIDO]");
      hasSensitive := true;
    }
    ghost var afterPhone := (sanitized, hasSensitive);
    if p.card.find(sanitized) {
      sanitized := p.card.replaceAll(sanitized, "[CARTÃO REMOVIDO]");
      hasSensitive := true;
    }
    FivePasses(p, text, afterCpf, afterCnpj, afterEmail, afterPhone);
  }

  /** The step's five passes, one after the other. */
  lemma FivePasses(p: Patterns, text: string, s1: (string, bool), s2: (string, bool),
                   s3: (string, bool), s4: (string, bool))
    requires s1 == ApplyPass(p, Cpf, text, false)
    requires s2 == ApplyPass(p, Cnpj, s1.0, s1.1)
    requires s3 == ApplyPass(p, Email, s2.0, s2.1)
    requires s4 == ApplyPass(p, Phone, s3.0, s3.1)
    ensures Scrub(p, text) == ApplyPass(p, Card, s4.0, s4.1)
  {
    assert Order[..0] == [];
    PassesSnoc(p, text, 0, text, false);
    PassesSnoc(p, text, 1, s1.0, s1.1);
    PassesSnoc(p, text, 2, s2.0, s2.1);
    PassesSnoc(p, text, 3, s3.0, s3.1);
    PassesSnoc(p, text, 4, s4.0, s4.1);
    assert Order[..5] == Order;
  }

  /** Pass `k` of the step, applied to what the passes before it produced,
      gives what the first `k + 1` passes produce. */
  lemma PassesSnoc(p: Patterns, text: string, k: nat, sanitized: string, flag: bool)
    requires k < |Order| && (sanitized, flag) == ScrubWith(p, text, Order[..k])
    ensures ScrubWith(p, text, Order[..k + 1]) == ApplyPass(p, Order[k], sanitized, flag)
  {
    assert Order[..k + 1][..k] == Order[..k];
  }

  /** The passes over a whole list: sanitized texts and flags, index by
      index. */
  function ScrubAll(p: Patterns, texts: seq<string>): (r: (seq<string>, seq<bool>))
    ensures |r.0| == |texts| && |r.1| == |texts|
    ensures forall i :: 0 <= i < |texts| ==> (r.0[i], r.1[i]) == Scrub(p, texts[i])
  {
    if texts == [] then ([], [])
    else
      var prev := ScrubAll(p, texts[..|texts| - 1]);
      var one := Scrub(p, texts[|texts| - 1]);
      (prev.0 + [one.0], prev.1 + [one.1])
  }

  /** One more text is one more sanitized text and one more flag. */
  lemma ScrubAllSnoc(p: Patterns, texts: seq<string>, i: nat)
    requires i < |texts|
    ensures var prev := ScrubAll(p, texts[..i]);
            var one := Scrub(p, texts[i]);
            ScrubAll(p, texts[..i + 1]) == (prev.0 + [one.0], prev.1 + [one.1])
  {
    assert texts[..i + 1][..i] == texts[..i];
  }
}
