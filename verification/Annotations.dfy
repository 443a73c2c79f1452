/** The `X-Ghars-Dns` annotation: written into a drop-in, read back from it. */
module Annotations {
  import opened Config
  import opened Options
  import opened Text
  import opened UnitParser
  import opened UnitText
  import opened UnitPrint

  const FORWARD := "forward"
  const STATIC := "static:"
  const DNS_KEY := "X-Ghars-Dns"

  /** What address text is made of. */
  predicate AddressChar(c: char) {
    '0' <= c <= '9' || 'a' <= c <= 'f' || 'A' <= c <= 'F' || c == '.' || c == ':'
  }

  predicate AddressText(s: string) {
    s != "" && forall c | c in s :: AddressChar(c)
  }

  /** What is assumed of the printing and parsing of addresses. */
  ghost predicate Faithful<Ip(!new)>(show: Ip -> string, parse: string -> Option<Ip>) {
    forall ip :: parse(show(ip)) == Some(ip) && AddressText(show(ip))
  }

  function PrintAll<Ip>(servers: seq<Ip>, show: Ip -> string): (r: seq<string>)
    ensures |r| == |servers|
  {
    if servers == [] then [] else [show(servers[0])] + PrintAll(servers[1..], show)
  }

  function ParseAll<Ip>(texts: seq<string>, parse: string -> Option<Ip>): Option<seq<Ip>> {
    if texts == [] then Some([])
    else
      var first, rest := parse(texts[0]), ParseAll(texts[1..], parse);
      if first.None? || rest.None? then None else Some([first.value] + rest.value)
  }

  /** `dns_to_annotation`. */
  function DnsToAnnotation<Ip>(d: DnsMode<Ip>, show: Ip -> string): string {
    match d
    case Forward => FORWARD
    case Static(servers) => STATIC + Join(PrintAll(servers, show), ',')
  }

  /** `dns_from_annotation`. */
  function DnsFromAnnotation<Ip>(s: string, parse: string -> Option<Ip>): Option<DnsMode<Ip>> {
    if s == FORWARD then Some(Forward)
    else
      match StripPrefix(s, STATIC)
      case None => None
      case Some(rest) =>
        if rest == "" then Some(Static([]))
        else
          match ParseAll(Split(rest, ','), parse)
          case None => None
          case Some(servers) => Some(Static(servers))
  }

  lemma {:induction false} AllParse<Ip(!new)>(servers: seq<Ip>, show: Ip -> string, parse: string -> Option<Ip>)
    requires Faithful(show, parse)
    ensures ParseAll(PrintAll(servers, show), parse) == Some(servers)
    ensures forall t | t in PrintAll(servers, show) :: AddressText(t)
  {
    if servers != [] {
      AllParse(servers[1..], show, parse);
      var texts := PrintAll(servers, show);
      assert texts[1..] == PrintAll(servers[1..], show);
      assert servers == [servers[0]] + servers[1..];
    }
  }

  /** A character of a list of addresses, or of what separates them. */
  predicate ListChar(c: char) {
    AddressChar(c) || c == ','
  }

  lemma {:induction false} JoinedText(texts: seq<string>)
    requires forall t | t in texts :: AddressText(t)
    ensures forall c | c in Join(texts, ',') :: ListChar(c)
    ensures texts != [] ==> Join(texts, ',') != "" && AddressChar(Join(texts, ',')[|Join(texts, ',')| - 1])
  {
    if texts != [] {
      assert texts[0] in texts;
      assert forall t | t in texts[1..] :: t in texts;
      JoinedText(texts[1..]);
      assert texts[0][|texts[0]| - 1] in texts[0];
    }
  }

  /** What is written. */
  lemma AnnotationTexts<Ip>(servers: seq<Ip>, last: Ip, show: Ip -> string)
    ensures DnsToAnnotation(DnsMode<Ip>.Forward, show) == "forward"
    ensures DnsToAnnotation(Static([last]), show) == "static:" + show(last)
    ensures servers != [] ==>
      DnsToAnnotation(Static(servers + [last]), show) == DnsToAnnotation(Static(servers), show) + "," + show(last)
    ensures DnsToAnnotation(DnsMode<Ip>.Static([]), show) == "static:"
  {
    PrintSnoc(servers, last, show);
    PrintSnoc([], last, show);
    assert [] + [last] == [last];
    JoinSnoc(PrintAll(servers, show), show(last), ',');
    JoinSnoc([], show(last), ',');
    if servers != [] {
      Assoc(STATIC, Join(PrintAll(servers, show), ',') + ",", show(last));
      Assoc(STATIC, Join(PrintAll(servers, show), ','), ",");
    }
  }

  lemma {:induction false} PrintSnoc<Ip>(servers: seq<Ip>, last: Ip, show: Ip -> string)
    ensures PrintAll(servers + [last], show) == PrintAll(servers, show) + [show(last)]
  {
    if servers == [] {
      assert servers + [last] == [last] && [last][1..] == [];
    } else {
      assert (servers + [last])[1..] == servers[1..] + [last];
      PrintSnoc(servers[1..], last, show);
    }
  }

  /** Every mode comes back from its annotation, the empty list of servers included. */
  lemma DnsRoundTrip<Ip(!new)>(d: DnsMode<Ip>, show: Ip -> string, parse: string -> Option<Ip>)
    requires Faithful(show, parse)
    ensures DnsFromAnnotation(DnsToAnnotation(d, show), parse) == Some(d)
  {
    if d.Static? {
      var texts := PrintAll(d.servers, show);
      var joined := Join(texts, ',');
      AllParse(d.servers, show, parse);
      JoinedText(texts);
      assert (STATIC + joined)[|STATIC|..] == joined;
      assert STATIC[0] == 's' && FORWARD[0] == 'f';
      if d.servers != [] { SplitJoin(texts, ','); }
    }
  }

  /** Exactly the texts that are annotations of something, or static lists of anything that parses, are
      accepted; a list is accepted only if each of its parts is an address. */
  lemma RejectsMalformed<Ip>(s: string, parse: string -> Option<Ip>)
    ensures DnsFromAnnotation(s, parse).None? <==>
      s != "forward" && (!("static:" <= s) || (s != "static:" && exists t | t in Split(s[7..], ',') :: parse(t).None?))
  {
    if STATIC <= s {
      AcceptsAll(Split(s[|STATIC|..], ','), parse);
      assert s == STATIC + s[|STATIC|..];
    }
  }

  lemma {:induction false} AcceptsAll<Ip>(texts: seq<string>, parse: string -> Option<Ip>)
    ensures ParseAll(texts, parse).None? <==> exists t | t in texts :: parse(t).None?
  {
    if texts != [] {
      AcceptsAll(texts[1..], parse);
      assert texts == [texts[0]] + texts[1..];
    }
  }

  lemma AnnotationIsPrintable<Ip(!new)>(d: DnsMode<Ip>, show: Ip -> string, parse: string -> Option<Ip>)
    requires Faithful(show, parse)
    ensures PrintableAssignment(Assignment(DNS_KEY, DnsToAnnotation(d, show)))
  {
    var text := DnsToAnnotation(d, show);
    if d.Static? {
      AllParse(d.servers, show, parse);
      JoinedText(PrintAll(d.servers, show));
    }
    assert text[0] in {'f', 's'};
    assert text[|text| - 1] in {'d', ':'} || AddressChar(text[|text| - 1]);
    assert '\n' !in text;
    assert (DNS_KEY + "=" + text)[0] == 'X';
  }

  /** Written into the `[Unit]` section of a drop-in, among other assignments, and read back through the
      unit parser, the annotation still gives the mode. */
  lemma DnsThroughUnit<Ip(!new)>(d: DnsMode<Ip>, show: Ip -> string, parse: string -> Option<Ip>,
                                 before: seq<Assignment>, after: seq<Assignment>)
    requires Faithful(show, parse)
    requires forall a | a in before + after :: PrintableAssignment(a) && a.key != DNS_KEY
    ensures var a := Assignment("X-Ghars-Dns", DnsToAnnotation(d, show));
      var text := Print(ParsedUnit([Section("Unit", before + [a] + after)]));
      var read := First(Meaning(text), "Unit", "X-Ghars-Dns");
      read.Some? && DnsFromAnnotation(read.value, parse) == Some(d)
  {
    hide Print, Meaning, PrintableAssignment, DnsToAnnotation, DnsFromAnnotation;
    var a := Assignment(DNS_KEY, DnsToAnnotation(d, show));
    var u := ParsedUnit([Section("Unit", before + [a] + after)]);
    AnnotationIsPrintable(d, show, parse);
    forall b | b in before + [a] + after
      ensures PrintableAssignment(b)
    {
      assert b == a || b in before + after;
    }
    RoundTrip(u);
    PickOne(before, a, after);
    assert u.sections[1..] == [];
    assert Values(u, "Unit", DNS_KEY) == [a.value] + Values(ParsedUnit([]), "Unit", DNS_KEY);
    DnsRoundTrip(d, show, parse);
  }

  lemma {:induction false} PickOne(before: seq<Assignment>, a: Assignment, after: seq<Assignment>)
    requires forall b | b in before + after :: b.key != a.key
    ensures Pick(before + [a] + after, a.key) == [a.value]
  {
    if before == [] {
      assert before + [a] + after == [a] + after && ([a] + after)[1..] == after;
      assert forall b | b in after :: b in before + after;
      PickNone(after, a.key);
    } else {
      assert (before + [a] + after)[1..] == before[1..] + [a] + after;
      assert before[0] in before + after && forall b | b in before[1..] + after :: b in before + after;
      PickOne(before[1..], a, after);
      assert [] + [a.value] == [a.value];
    }
  }

  lemma {:induction false} PickNone(entries: seq<Assignment>, key: string)
    requires forall b | b in entries :: b.key != key
    ensures Pick(entries, key) == []
  {
    if entries != [] {
      assert entries[0] in entries && forall b | b in entries[1..] :: b in entries;
      PickNone(entries[1..], key);
    }
  }
}
