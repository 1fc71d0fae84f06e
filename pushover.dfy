/** The notification side of the program: the form body `sendMessage` builds and the three
    `pushover_*` helpers that decide whether a message is sent at all.

    The socket, DNS, TLS and HTTP exchange of `sendMessage` are outside the model; what is
    left of a send is the message it carries and whether the helper reports success. */
module Pushover {
  import opened FormEncoding

  /** The three notifications the main loop sends. */
  datatype Kind = Startup | Alert | Recovery

  /** Title, text and priority passed to sendMessage. */
  datatype Message = Message(title: string, text: string, highPriority: bool)

  /** The fixed message of each helper. None of them passes highPriority, so every message
      goes out at normal priority. */
  function Template(kind: Kind): (m: Message)
    ensures !m.highPriority
    ensures |m.title| > 0 && |m.text| > 0
  {
    match kind
    case Startup => Message("Aquarium Float Trigger: Started", "The float switch service has started up", false)
    case Alert => Message("Aquarium Float Trigger: ALERT", "The float switch has triggered. Check overflow!", false)
    case Recovery => Message("Aquarium Float Trigger: OK", "The float switch state has been restored", false)
  }

  // ---------------------------------------------------------------------------
  // The form body

  /** The body sendMessage posts: the four fields in a fixed order, each value passed through
      make_safe, and an optional priority field. */
  function FormBody(token: string, user: string, title: string, msg: string, highPriority: bool): (r: string)
    ensures |r| >= 28 + |token| + |user| + |title| + |msg| + (if highPriority then 11 else 0)
    ensures r[..6] == "token="
  {
    EncodedLength(token);
    EncodedLength(user);
    EncodedLength(title);
    EncodedLength(msg);
    FormLayout(Encoded(token), Encoded(user), Encoded(title), Encoded(msg), highPriority);
    "token=" + Encoded(token)
    + "&user=" + Encoded(user)
    + "&title=" + Encoded(title)
    + "&message=" + Encoded(msg)
    + (if highPriority then "&priority=1" else "")
  }

  /** The length and the first field name of the body layout, over arbitrary values. */
  lemma FormLayout(e1: string, e2: string, e3: string, e4: string, highPriority: bool)
    ensures var body := "token=" + e1 + "&user=" + e2 + "&title=" + e3 + "&message=" + e4
                        + (if highPriority then "&priority=1" else "");
            |body| == 28 + |e1| + |e2| + |e3| + |e4| + (if highPriority then 11 else 0)
            && body[..6] == "token="
  {
  }

  /** The body of the request a helper makes for a given kind of notification. No helper asks
      for high priority, so no request body carries the priority field. */
  function RequestBody(token: string, user: string, kind: Kind): (r: string)
    ensures !(|r| >= 11 && r[|r| - 11..] == "&priority=1")
  {
    var m := Template(kind);
    FormBodyPriority(token, user, m.title, m.text, m.highPriority);
    FormBody(token, user, m.title, m.text, m.highPriority)
  }

  /** Splitting at a separator, as a form parser splits the body at '&'. */
  function Split(s: string, sep: char): (r: seq<string>)
    ensures |r| >= 1
    decreases |s|
  {
    if s == [] then [[]]
    else
      var rest := Split(s[1..], sep);
      if s[0] == sep then [[]] + rest else [[s[0]] + rest[0]] + rest[1..]
  }

  lemma {:induction false} SplitNoSep(a: string, sep: char)
    requires sep !in a
    ensures Split(a, sep) == [a]
    decreases |a|
  {
    if a != [] {
      SplitNoSep(a[1..], sep);
      assert [a[0]] + a[1..] == a;
    }
  }

  lemma {:induction false} SplitAt(a: string, sep: char, b: string)
    requires sep !in a
    ensures Split(a + [sep] + b, sep) == [a] + Split(b, sep)
    decreases |a|
  {
    var s := a + [sep] + b;
    if a == [] {
      assert s[1..] == b;
    } else {
      SplitAt(a[1..], sep, b);
      assert s[1..] == a[1..] + [sep] + b;
      assert [a[0]] + a[1..] == a;
    }
  }

  /** Three '&'-free fields, each followed by '&', split off in front of the rest. */
  lemma SplitThree(f1: string, f2: string, f3: string, rest: string)
    requires '&' !in f1 && '&' !in f2 && '&' !in f3
    ensures Split(f1 + ['&'] + f2 + ['&'] + f3 + ['&'] + rest, '&') == [f1, f2, f3] + Split(rest, '&')
  {
    var r3 := f3 + ['&'] + rest;
    var r2 := f2 + ['&'] + r3;
    SplitAt(f3, '&', rest);
    SplitAt(f2, '&', r3);
    SplitAt(f1, '&', r2);
    Regroup(f1, f2, f3, rest);
  }

  lemma Regroup(f1: string, f2: string, f3: string, rest: string)
    ensures f1 + ['&'] + f2 + ['&'] + f3 + ['&'] + rest == f1 + ['&'] + (f2 + ['&'] + (f3 + ['&'] + rest))
  {
  }

  lemma PriorityFacts(f4: string)
    ensures '&' !in "priority=1"
    ensures f4 + "&priority=1" == f4 + "&" + "priority=1"
  {
  }

  lemma SplitPair(a: string, b: string)
    requires '&' !in a && '&' !in b
    ensures Split(a + "&" + b, '&') == [a, b]
  {
    assert a + "&" + b == a + ['&'] + b;
    SplitAt(a, '&', b);
    SplitNoSep(b, '&');
  }

  /** The last field, with or without the priority field after it. */
  lemma SplitLast(f4: string, highPriority: bool)
    requires '&' !in f4
    ensures Split(f4 + (if highPriority then "&priority=1" else ""), '&')
         == [f4] + (if highPriority then ["priority=1"] else [])
  {
    if highPriority {
      PriorityFacts(f4);
      SplitPair(f4, "priority=1");
    } else {
      assert f4 + "" == f4;
      SplitNoSep(f4, '&');
    }
  }

  /** The field layout of sendMessage over arbitrary '&'-free values. */
  lemma SplitForm(e1: string, e2: string, e3: string, e4: string, highPriority: bool)
    requires '&' !in e1 && '&' !in e2 && '&' !in e3 && '&' !in e4
    ensures Split("token=" + e1 + "&user=" + e2 + "&title=" + e3 + "&message=" + e4
                  + (if highPriority then "&priority=1" else ""), '&')
         == ["token=" + e1, "user=" + e2, "title=" + e3, "message=" + e4]
            + (if highPriority then ["priority=1"] else [])
  {
    var f1, f2, f3, f4 := "token=" + e1, "user=" + e2, "title=" + e3, "message=" + e4;
    assert '&' !in f1 && '&' !in f2 && '&' !in f3 && '&' !in f4;
    var last := f4 + (if highPriority then "&priority=1" else "");
    var b2 := "token=" + e1 + "&user=" + e2;
    assert b2 == f1 + ['&'] + f2 by { assert "&user=" == ['&'] + "user="; }
    var b3 := b2 + "&title=" + e3;
    assert b3 == b2 + ['&'] + f3 by { assert "&title=" == ['&'] + "title="; }
    assert b3 + "&message=" + e4 + (if highPriority then "&priority=1" else "") == b3 + ['&'] + last by {
      assert "&message=" == ['&'] + "message=";
    }
    SplitThree(f1, f2, f3, last);
    SplitLast(f4, highPriority);
    var tail: seq<string> := if highPriority then ["priority=1"] else [];
    assert [f1, f2, f3] + ([f4] + tail) == [f1, f2, f3, f4] + tail;
  }

  /** The form body splits at '&' into exactly the fields sendMessage appended, in order: no
      encoded value can contain a '&' that would shift a field boundary. */
  lemma FormBodyFields(token: string, user: string, title: string, msg: string, highPriority: bool)
    ensures Split(FormBody(token, user, title, msg, highPriority), '&')
         == ["token=" + Encoded(token), "user=" + Encoded(user), "title=" + Encoded(title),
             "message=" + Encoded(msg)] + (if highPriority then ["priority=1"] else [])
  {
    EncodedSeparators(token);
    EncodedSeparators(user);
    EncodedSeparators(title);
    EncodedSeparators(msg);
    SplitForm(Encoded(token), Encoded(user), Encoded(title), Encoded(msg), highPriority);
  }

  lemma AsciiAppend(a: string, b: string)
    requires IsAscii(a) && IsAscii(b)
    ensures IsAscii(a + b)
  {
    forall k | 0 <= k < |a + b|
      ensures (a + b)[k] as int < 128
    {
      if k >= |a| {
        assert (a + b)[k] == b[k - |a|];
      }
    }
  }

  /** The layout of sendMessage's body over arbitrary ASCII values is ASCII. */
  lemma AsciiForm(e1: string, e2: string, e3: string, e4: string, highPriority: bool)
    requires IsAscii(e1) && IsAscii(e2) && IsAscii(e3) && IsAscii(e4)
    ensures IsAscii("token=" + e1 + "&user=" + e2 + "&title=" + e3 + "&message=" + e4
                    + (if highPriority then "&priority=1" else ""))
  {
    var tail := if highPriority then "&priority=1" else "";
    assert IsAscii("token=") && IsAscii("&user=") && IsAscii("&title=") && IsAscii("&message=") && IsAscii(tail);
    AsciiAppend("token=", e1);
    AsciiAppend("token=" + e1, "&user=");
    AsciiAppend("token=" + e1 + "&user=", e2);
    AsciiAppend("token=" + e1 + "&user=" + e2, "&title=");
    AsciiAppend("token=" + e1 + "&user=" + e2 + "&title=", e3);
    AsciiAppend("token=" + e1 + "&user=" + e2 + "&title=" + e3, "&message=");
    AsciiAppend("token=" + e1 + "&user=" + e2 + "&title=" + e3 + "&message=", e4);
    AsciiAppend("token=" + e1 + "&user=" + e2 + "&title=" + e3 + "&message=" + e4, tail);
  }

  /** The body is plain ASCII, so the character count sendMessage puts in Content-Length is
      also its length in bytes. */
  lemma FormBodyAscii(token: string, user: string, title: string, msg: string, highPriority: bool)
    ensures IsAscii(FormBody(token, user, title, msg, highPriority))
  {
    EncodedSeparators(token);
    EncodedSeparators(user);
    EncodedSeparators(title);
    EncodedSeparators(msg);
    AsciiForm(Encoded(token), Encoded(user), Encoded(title), Encoded(msg), highPriority);
  }

  /** A string whose last '&' starts "&m" does not end with "&priority=1". */
  lemma NoPrioritySuffix(p: string, x: string)
    requires '&' !in x && |x| >= 1 && x[0] == 'm'
    ensures var body := p + ['&'] + x;
            !(|body| >= 11 && body[|body| - 11..] == "&priority=1")
  {
    var body := p + ['&'] + x;
    if |body| >= 11 {
      var q := |body| - 11;
      var suffix := body[q..];
      if q > |p| {
        assert suffix[0] == x[q - |p| - 1];
        assert suffix[0] != "&priority=1"[0];
      } else if q < |p| {
        assert suffix[|p| - q] == '&';
        assert '&' !in "&priority=1"[1..];
        assert suffix[|p| - q] != "&priority=1"[|p| - q];
      } else {
        assert suffix[1] == 'm';
        assert suffix[1] != "&priority=1"[1];
      }
    }
  }

  /** The priority suffix over the body layout with an arbitrary '&'-free message value. */
  lemma PrioritySuffixForm(e1: string, e2: string, e3: string, e4: string, highPriority: bool)
    requires '&' !in e4
    ensures var body := "token=" + e1 + "&user=" + e2 + "&title=" + e3 + "&message=" + e4
                        + (if highPriority then "&priority=1" else "");
            (|body| >= 11 && body[|body| - 11..] == "&priority=1") <==> highPriority
  {
    var body := "token=" + e1 + "&user=" + e2 + "&title=" + e3 + "&message=" + e4
                + (if highPriority then "&priority=1" else "");
    var p := "token=" + e1 + "&user=" + e2 + "&title=" + e3;
    var x := "message=" + e4;
    assert '&' !in x;
    assert "&message=" == ['&'] + "message=";
    if highPriority {
      assert body == p + ['&'] + x + "&priority=1";
    } else {
      assert body == p + ['&'] + x;
      NoPrioritySuffix(p, x);
    }
  }

  /** The body ends with "&priority=1" exactly when highPriority was requested. */
  lemma FormBodyPriority(token: string, user: string, title: string, msg: string, highPriority: bool)
    ensures var body := FormBody(token, user, title, msg, highPriority);
            (|body| >= 11 && body[|body| - 11..] == "&priority=1") <==> highPriority
  {
    EncodedSeparators(msg);
    PrioritySuffixForm(Encoded(token), Encoded(user), Encoded(title), Encoded(msg), highPriority);
  }

  // ---------------------------------------------------------------------------
  // pushover_started / pushover_alert / pushover_recovery

  /** What a helper call did: nothing (not connected), or one request with its reported
      outcome. */
  datatype Attempt = NotAttempted | Attempted(message: Message, sent: bool)

  /** A helper call. `connected` is wlan.isconnected(); `completed` says whether sendMessage
      returned without raising, which the model takes as an input. */
  function Notify(kind: Kind, connected: bool, completed: bool): (a: Attempt)
    ensures a.Attempted? <==> connected
    ensures a.Attempted? ==> a.message == Template(kind)
    ensures Reported(a) <==> connected && completed
  {
    if connected then Attempted(Template(kind), completed) else NotAttempted
  }

  /** The helper's boolean result. */
  function Reported(a: Attempt): bool {
    a.Attempted? && a.sent
  }
}
