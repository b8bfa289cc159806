/** `detect_esp` of install_refind.py: the EFI system partitions `fdisk`
    lists, and the interactive choice among them when there are several.
    The integers typed at the prompt are a parameter; running out of them is
    Python's EOFError. */
module EspChoice {
  import opened Python
  import opened PyText
  import opened BootEntries

  /** The partition type `fdisk --list` is filtered on. */
  const EspMarker: string := "EFI System"

  /** What `fdisk --list | grep 'EFI System'` prints. */
  function EspListing(fdiskList: string): string
  {
    Grep(fdiskList, EspMarker)
  }

  /** The candidates: the first space-separated field (the device path) of
      every listing line, after the first empty piece is dropped. */
  function EspCandidates(listing: string): (es: seq<string>)
    ensures |es| == |EntryLines(listing)|
  {
    var lines := EntryLines(listing);
    seq(|lines|, i requires 0 <= i < |lines| => FirstField(lines[i], ' '))
  }

  /** The candidates are the device fields of exactly those `fdisk` lines
      that mention an EFI System partition, in order: each is a space-free
      prefix of its line. */
  lemma CandidatesOfDisk(fdiskList: string)
    ensures var es := EspCandidates(EspListing(fdiskList));
            var ls := Matching(GrepLines(fdiskList), EspMarker);
      && |es| == |ls|
      && forall i :: 0 <= i < |es| ==>
           && Contains(ls[i], EspMarker)
           && ' ' !in es[i]
           && |es[i]| <= |ls[i]| && es[i] == ls[i][..|es[i]|]
           && (|es[i]| == |ls[i]| || ls[i][|es[i]|] == ' ')
  {
    var ls := Matching(GrepLines(fdiskList), EspMarker);
    GrepThenSplitLines(fdiskList, EspMarker);
    RemoveFirstOfLast(ls, "");
    assert EntryLines(EspListing(fdiskList)) == ls;
    forall i | 0 <= i < |ls| {
      FirstFieldIsPrefix(ls[i], ' ');
    }
  }

  /** The index of the first answer that is at most `n` (|choices| if none):
      the prompt repeats while the answer exceeds the number of candidates. */
  function FirstAtMost(choices: seq<int>, n: int): (k: nat)
    ensures k <= |choices|
    ensures k < |choices| ==> choices[k] <= n
    ensures forall j :: 0 <= j < k ==> choices[j] > n
    decreases |choices|
  {
    if choices == [] then 0
    else if choices[0] <= n then 0
    else 1 + FirstAtMost(choices[1..], n)
  }

  /** The partition `detect_esp` returns (or the exception it raises) and how
      many answers it read: with at most one candidate no question is asked
      and `esp_entries[-1]` is taken; otherwise the first answer not above
      the count selects `esp_entries[answer - 1]`, Python indexing. */
  function ChooseEsp(es: seq<string>, choices: seq<int>): (Result<string>, nat)
  {
    if |es| <= 1 then (PyIndex(es, -1), 0)
    else
      var k := FirstAtMost(choices, |es|);
      if k == |choices| then (Raised(EOFError), |choices|)
      else (PyIndex(es, choices[k] - 1), k + 1)
  }

  /** The cases of the choice: no candidate raises IndexError; one is taken
      without a question; with several, answers above the count are asked
      again, running out of answers raises EOFError, an answer 1..n picks
      that candidate, 0 picks the last one, and one at or below -n raises
      IndexError. Whatever is returned is one of the candidates. */
  lemma ChooseEspCases(es: seq<string>, choices: seq<int>)
    ensures |es| == 0 ==> ChooseEsp(es, choices) == (Raised(IndexError), 0)
    ensures |es| == 1 ==> ChooseEsp(es, choices) == (Ok(es[0]), 0)
    ensures |es| > 1 && (forall j :: 0 <= j < |choices| ==> choices[j] > |es|) ==>
      ChooseEsp(es, choices) == (Raised(EOFError), |choices|)
    ensures |es| > 1 ==>
      forall k :: 0 <= k < |choices| && choices[k] <= |es| &&
                  (forall j :: 0 <= j < k ==> choices[j] > |es|) ==>
        && ChooseEsp(es, choices).1 == k + 1
        && (1 <= choices[k] ==> ChooseEsp(es, choices).0 == Ok(es[choices[k] - 1]))
        && (choices[k] == 0 ==> ChooseEsp(es, choices).0 == Ok(es[|es| - 1]))
        && (choices[k] <= -|es| ==> ChooseEsp(es, choices).0 == Raised(IndexError))
    ensures ChooseEsp(es, choices).0.Ok? ==> ChooseEsp(es, choices).0.value in es
    ensures ChooseEsp(es, choices).1 <= |choices|
  {
    if |es| > 1 {
      var k0 := FirstAtMost(choices, |es|);
      forall k | 0 <= k < |choices| && choices[k] <= |es| && (forall j :: 0 <= j < k ==> choices[j] > |es|)
        ensures k == k0
      {
      }
    }
  }

  /** The prompt loop of `detect_esp`: asks again while the answer exceeds
      `n`; returns the accepted answer and the number of answers read. */
  method AskChoice(n: nat, choices: seq<int>) returns (choice: Result<int>, prompts: nat)
    ensures var k := FirstAtMost(choices, n);
      && (k == |choices| ==> choice == Raised(EOFError) && prompts == |choices|)
      && (k < |choices| ==> choice == Ok(choices[k]) && prompts == k + 1)
  {
    var c := n + 1;
    prompts := 0;
    while c > n
      invariant prompts <= |choices|
      invariant forall j :: 0 <= j < prompts - 1 ==> choices[j] > n
      invariant prompts == 0 ==> c == n + 1
      invariant prompts > 0 ==> c == choices[prompts - 1]
      decreases |choices| - prompts
    {
      if prompts == |choices| {
        assert FirstAtMost(choices, n) == |choices|;
        return Raised(EOFError), prompts;
      }
      c := choices[prompts];
      prompts := prompts + 1;
    }
    return Ok(c), prompts;
  }

  /** `detect_esp`, reading the listing `fdisk --list | grep 'EFI System'`
      printed: returns the chosen partition and the number of answers read. */
  method DetectEsp(listing: string, choices: seq<int>) returns (r: Result<string>, prompts: nat)
    ensures (r, prompts) == ChooseEsp(EspCandidates(listing), choices)
  {
    var es := EspCandidates(listing);
    r, prompts := PickEsp(es, choices);
  }

  /** The second half of `detect_esp`: a question only when there are
      several candidates, then `esp_entries[choice - 1]`. */
  method PickEsp(es: seq<string>, choices: seq<int>) returns (r: Result<string>, prompts: nat)
    ensures (r, prompts) == ChooseEsp(es, choices)
  {
    var choice := 0;
    prompts := 0;
    if |es| > 1 {
      var answer;
      answer, prompts := AskChoice(|es|, choices);
      ghost var k := FirstAtMost(choices, |es|);
      if answer.Raised? {
        assert k == |choices|;
        return Raised(answer.error), prompts;
      }
      choice := answer.value;
      assert k < |choices| && choice == choices[k] && prompts == k + 1;
    }
    r := PyIndex(es, choice - 1);
  }
}
