/**
 * What the gateway filter sees of a web exchange and of its collaborators:
 * the request's headers, the failures that can travel through a reactive
 * pipeline, and a single ordered trace in which the user directory and the
 * downstream filter chain record every call made to them.
 */
module Exchange {
  import opened Optional
  import opened Dto

  /** One header line: a field name and one of its values. */
  datatype HeaderField = HeaderField(name: string, value: string)

  /**
   * An inbound request. Only its headers matter to the filter; `target`
   * stands for everything else it carries (method, path, body), which the
   * filter never touches. The headers are kept as the ordered list of
   * fields the request arrived with; a name with several values appears
   * several times.
   */
  datatype Request = Request(target: string, headers: seq<HeaderField>)

  /** ASCII case folding, as Netty's `AsciiString` applies it to header names. */
  function FoldCase(c: char): char {
    if 'A' <= c <= 'Z' then (c as int + 32) as char else c
  }

  /** A name with every ASCII capital letter lowered. */
  function Folded(s: string): string {
    seq(|s|, i requires 0 <= i < |s| => FoldCase(s[i]))
  }

  /**
   * Field names are case-insensitive (section 5.1 of RFC 9110); HTTP/2
   * sends them in lower case.
   */
  predicate SameName(a: string, b: string) {
    Folded(a) == Folded(b)
  }

  /** The value of the first field named `name`, if any. */
  function First(fields: seq<HeaderField>, name: string): Option<string> {
    if fields == [] then None
    else if SameName(fields[0].name, name) then Some(fields[0].value)
    else First(fields[1..], name)
  }

  /**
   * What `First` finds: nothing exactly when no field has the name, and
   * otherwise the value of the earliest field that has it.
   */
  lemma {:induction false} FirstFinds(fields: seq<HeaderField>, name: string)
    ensures First(fields, name).None? <==> forall i :: 0 <= i < |fields| ==> !SameName(fields[i].name, name)
    ensures First(fields, name).Some? ==>
              exists i :: 0 <= i < |fields| && SameName(fields[i].name, name)
                          && fields[i].value == First(fields, name).value
                          && forall j :: 0 <= j < i ==> !SameName(fields[j].name, name)
  {
    if fields != [] && !SameName(fields[0].name, name) {
      var rest := fields[1..];
      FirstFinds(rest, name);
      forall i | 0 < i < |fields| ensures fields[i] == rest[i - 1] { }
      if First(rest, name).Some? {
        var k :| 0 <= k < |rest| && SameName(rest[k].name, name)
                 && rest[k].value == First(rest, name).value
                 && forall j :: 0 <= j < k ==> !SameName(rest[j].name, name);
        assert fields[k + 1] == rest[k];
        forall j | 0 <= j < k + 1 ensures !SameName(fields[j].name, name) {
          if j > 0 { assert fields[j] == rest[j - 1]; }
        }
      }
    }
  }

  /**
   * `getHeaders().getFirst(name)`: the first value of the header, whatever
   * the case its name was sent in, or `null` when there is none.
   */
  function FirstHeader(r: Request, name: string): Option<string> {
    First(r.headers, name)
  }

  /** Names that differ only in letter case name the same header. */
  lemma {:induction false} FirstIgnoresCase(fields: seq<HeaderField>, a: string, b: string)
    requires SameName(a, b)
    ensures First(fields, a) == First(fields, b)
  {
    if fields != [] {
      FirstIgnoresCase(fields[1..], a, b);
    }
  }

  /** Every field named `name`, in any spelling, removed. */
  function Without(fields: seq<HeaderField>, name: string): seq<HeaderField> {
    if fields == [] then []
    else if SameName(fields[0].name, name) then Without(fields[1..], name)
    else [fields[0]] + Without(fields[1..], name)
  }

  /** `Without` leaves no field of that name and never adds one. */
  lemma {:induction false} WithoutDrops(fields: seq<HeaderField>, name: string)
    ensures |Without(fields, name)| <= |fields|
    ensures forall i :: 0 <= i < |Without(fields, name)| ==> !SameName(Without(fields, name)[i].name, name)
  {
    if fields != [] {
      WithoutDrops(fields[1..], name);
      var rest := Without(fields[1..], name);
      if !SameName(fields[0].name, name) {
        forall i | 0 < i < |rest| + 1 ensures ([fields[0]] + rest)[i] == rest[i - 1] { }
      }
    }
  }

  /** Removing one header leaves the first value of every other header as it was. */
  lemma {:induction false} WithoutKeepsOthers(fields: seq<HeaderField>, name: string, other: string)
    requires !SameName(other, name)
    ensures First(Without(fields, name), other) == First(fields, other)
  {
    if fields != [] {
      WithoutKeepsOthers(fields[1..], name, other);
      var n := fields[0].name;
      if SameName(n, name) {
        assert !SameName(n, other);
      } else {
        var rest := Without(fields[1..], name);
        assert ([fields[0]] + rest)[1..] == rest;
      }
    }
  }

  /** The first value found in `a + b` is the first in `a`, or else the first in `b`. */
  lemma {:induction false} FirstAppend(a: seq<HeaderField>, b: seq<HeaderField>, name: string)
    ensures First(a + b, name) == if First(a, name).Some? then First(a, name) else First(b, name)
  {
    if a == [] {
      assert a + b == b;
    } else {
      assert (a + b)[1..] == a[1..] + b;
      FirstAppend(a[1..], b, name);
    }
  }

  /**
   * `request.mutate().header(name, value).build()`: every spelling of the
   * header is dropped and the single field `name: value` added, and the
   * rest of the request is unchanged.
   */
  function WithHeader(r: Request, name: string, value: string): (m: Request)
    ensures m.target == r.target
  {
    r.(headers := Without(r.headers, name) + [HeaderField(name, value)])
  }

  /**
   * After `WithHeader` the header reads as the new value, in whatever case
   * it is asked for, and its field is the only one of that name.
   */
  lemma WithHeaderSets(r: Request, name: string, value: string, asked: string)
    requires SameName(asked, name)
    ensures var m := WithHeader(r, name, value);
            && FirstHeader(m, asked) == Some(value)
            && m.headers[|m.headers| - 1] == HeaderField(name, value)
            && forall i :: 0 <= i < |m.headers| - 1 ==> !SameName(m.headers[i].name, name)
  {
    var kept := Without(r.headers, name);
    FirstAppend(kept, [HeaderField(name, value)], asked);
    FirstIgnoresCase(kept, asked, name);
    FirstFinds(kept, name);
    WithoutDrops(r.headers, name);
  }

  /** `WithHeader` leaves every other header reading as before. */
  lemma WithHeaderKeepsOthers(r: Request, name: string, value: string, other: string)
    requires !SameName(other, name)
    ensures FirstHeader(WithHeader(r, name, value), other) == FirstHeader(r, other)
  {
    var kept := Without(r.headers, name);
    FirstAppend(kept, [HeaderField(name, value)], other);
    WithoutKeepsOthers(r.headers, name, other);
  }

  /**
   * The request without any field of that header. The filter never removes a
   * header; this builds the header-less twin of a request for comparisons.
   */
  function WithoutHeader(r: Request, name: string): (m: Request)
    ensures m.target == r.target
  {
    r.(headers := Without(r.headers, name))
  }

  /**
   * After `WithoutHeader` the header is absent in every spelling and every
   * other header reads as before.
   */
  lemma WithoutHeaderReads(r: Request, name: string, other: string)
    ensures SameName(other, name) ==> FirstHeader(WithoutHeader(r, name), other).None?
    ensures !SameName(other, name) ==> FirstHeader(WithoutHeader(r, name), other) == FirstHeader(r, other)
  {
    var kept := Without(r.headers, name);
    if SameName(other, name) {
      FirstIgnoresCase(kept, other, name);
      FirstFinds(kept, name);
      WithoutDrops(r.headers, name);
    } else {
      WithoutKeepsOthers(r.headers, name, other);
    }
  }

  /** Exceptions that can end a request's pipeline. */
  datatype Failure =
    | NullPointer                        // a null dereference in the filter itself
    | Runtime(message: string)           // a RuntimeException raised by the gateway's user client
    | Transport(description: string)     // any other exception raised by the HTTP client

  /** A call to the user directory over HTTP. */
  datatype HttpCall = Get(uri: string) | Post(uri: string, body: RegisterRequest)

  /** One interaction of the filter with a collaborator. */
  datatype Event =
    | Sent(call: HttpCall)         // a request issued to the user directory
    | Forwarded(request: Request)  // `chain.filter` invoked with this request

  /** The ordered record of every call the collaborators receive. */
  class Trace {
    var events: seq<Event>

    constructor ()
      ensures events == []
    {
      events := [];
    }

    method Record(e: Event)
      modifies this
      ensures events == old(events) + [e]
    {
      events := events + [e];
    }
  }

  /** The rest of the gateway's filter chain; it records what it is handed. */
  class FilterChain {
    const trace: Trace

    constructor (trace: Trace)
      ensures this.trace == trace
    {
      this.trace := trace;
    }

    method Filter(request: Request)
      modifies trace
      ensures trace.events == old(trace.events) + [Forwarded(request)]
    {
      trace.Record(Forwarded(request));
    }
  }
}
