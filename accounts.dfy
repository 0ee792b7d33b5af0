/**
  Account identifiers: the digits-only normal form (`_clean_acc`), the
  routing of the input file's accounts between the Clic+ back-end (at most
  eight digits) and the CSR back-end (more than eight), and the "last seven"
  fragment the CSR identity screen is given.
*/
module Accounts {
  import opened Text
  import opened Seqs

  /** Accounts whose normal form has at most this many digits go to Clic+, the others to CSR. */
  const ClicMaxDigits: nat := 8

  /** `_clean_acc(acc)`: the digits of the stripped account. */
  function CleanAcc(acc: string): (r: string)
    ensures AllDigits(r)
    ensures |r| <= |acc|
  {
    Digits(Strip(acc))
  }

  /** Stripping first changes nothing: the normal form is exactly the digits of the raw account, in order. */
  lemma CleanAccIsDigits(acc: string)
    ensures CleanAcc(acc) == Digits(acc)
  {
    DigitsOfStrip(acc);
  }

  /** Normalisation is idempotent. */
  lemma CleanAccIdempotent(acc: string)
    ensures CleanAcc(CleanAcc(acc)) == CleanAcc(acc)
  {
    var c := CleanAcc(acc);
    StripKeepsAllDigits(c);
    DigitsOfAllDigits(c);
  }

  /** An account made only of digits is its own normal form. */
  lemma CleanAccOfDigits(acc: string)
    requires AllDigits(acc)
    ensures CleanAcc(acc) == acc
  {
    StripKeepsAllDigits(acc);
    DigitsOfAllDigits(acc);
  }

  /** Normalising a concatenation concatenates the normal forms: separators never move digits. */
  lemma CleanAccAppend(a: string, b: string)
    ensures CleanAcc(a + b) == CleanAcc(a) + CleanAcc(b)
  {
    CleanAccIsDigits(a + b);
    CleanAccIsDigits(a);
    CleanAccIsDigits(b);
    DigitsAppend(a, b);
  }

  predicate IsClic(acc: string) {
    |CleanAcc(acc)| <= ClicMaxDigits
  }

  predicate IsCsr(acc: string) {
    |CleanAcc(acc)| > ClicMaxDigits
  }

  /** `[a for a in accts if len(_clean_acc(a)) <= 8]`. */
  function ClicAccounts(accts: seq<string>): seq<string> {
    Filter(IsClic, accts)
  }

  /** `[a for a in accts if len(_clean_acc(a)) > 8]`. */
  function CsrAccounts(accts: seq<string>): seq<string> {
    Filter(IsCsr, accts)
  }

  /** Routing splits the accounts without losing or duplicating any: the two lists together are a permutation of the input. */
  lemma RoutePartition(accts: seq<string>)
    ensures multiset(ClicAccounts(accts)) + multiset(CsrAccounts(accts)) == multiset(accts)
    ensures |ClicAccounts(accts)| + |CsrAccounts(accts)| == |accts|
  {
    FilterSplit(IsClic, IsCsr, accts);
    assert |multiset(ClicAccounts(accts))| + |multiset(CsrAccounts(accts))| == |multiset(accts)|;
  }

  /** Every routed account has the digit count of its list, and every input account lands in exactly one list. */
  lemma RouteExactlyOne(accts: seq<string>, a: string)
    requires a in accts
    ensures a in ClicAccounts(accts) <==> |CleanAcc(a)| <= 8
    ensures a in CsrAccounts(accts) <==> |CleanAcc(a)| > 8
  {
    FilterMember(IsClic, accts, a);
    FilterMember(IsCsr, accts, a);
  }

  /** Routing preserves input order: routing a concatenation concatenates the routings. */
  lemma RouteAppend(xs: seq<string>, ys: seq<string>)
    ensures ClicAccounts(xs + ys) == ClicAccounts(xs) + ClicAccounts(ys)
    ensures CsrAccounts(xs + ys) == CsrAccounts(xs) + CsrAccounts(ys)
  {
    FilterAppend(IsClic, xs, ys);
    FilterAppend(IsCsr, xs, ys);
  }

  /** `account[-7:]`: the last seven characters of the raw account, or all of it when it is shorter. */
  function LastSeven(account: string): (r: string)
    ensures |r| == if |account| < 7 then |account| else 7
    ensures account == account[..|account| - |r|] + r
  {
    if |account| <= 7 then account else account[|account| - 7..]
  }
}
