/** `send_request` and `receive_response` of monitor.py, over a socket whose
    peer is an abstract network. Opening the connection (TCP, TLS, the
    timeout) is not modelled: its failures are part of `Reply.Failure`. */
module Wire {
  import opened PyText
  import opened UrlParser

  /** Where `establish_connection` connects: the protocol decides whether TLS is used. */
  datatype Endpoint = Endpoint(protocol: Scheme, host: string, port: int)

  /** One connection and the request bytes sent on it. */
  datatype Exchange = Exchange(endpoint: Endpoint, request: seq<byte>)

  /** What the peer does: fail (refused connection, DNS or TLS failure,
      timeout, reset), or send data in chunks, one per `recv` call. */
  datatype Reply = Failure | Chunks(chunks: seq<seq<byte>>)

  /** The network: a server's reply to each exchange. An exchange the map
      does not list fails. */
  type Network = map<Exchange, Reply>

  function Serve(net: Network, e: Exchange): Reply {
    if e in net then net[e] else Failure
  }

  // ---------------------------------------------------------------------
  // The request

  /** The HTTP/1.0 request `send_request` writes for a host and path. */
  function RequestText(host: string, path: string): string {
    "GET " + path + " HTTP/1.0\r\n" + "Host: " + host + "\r\n" + "\r\n"
  }

  /** `bytes(request, 'utf-8')` */
  function RequestBytes(host: string, path: string): seq<byte> {
    Utf8Encode(RequestText(host, path))
  }

  /** For an ASCII host and path, the bytes sent are the request's character
      codes, one byte per character. */
  lemma RequestBytesOfAscii(host: string, path: string)
    requires IsAscii(host) && IsAscii(path)
    ensures |RequestBytes(host, path)| == |RequestText(host, path)|
    ensures forall i :: 0 <= i < |RequestText(host, path)| ==>
              RequestBytes(host, path)[i] as int == RequestText(host, path)[i] as int
  {
    assert IsAscii("GET ") && IsAscii(" HTTP/1.0\r\n") && IsAscii("Host: ") && IsAscii("\r\n");
    AsciiConcat("GET ", path);
    AsciiConcat("GET " + path, " HTTP/1.0\r\n");
    AsciiConcat("GET " + path + " HTTP/1.0\r\n", "Host: ");
    AsciiConcat("GET " + path + " HTTP/1.0\r\n" + "Host: ", host);
    AsciiConcat("GET " + path + " HTTP/1.0\r\n" + "Host: " + host, "\r\n");
    AsciiConcat("GET " + path + " HTTP/1.0\r\n" + "Host: " + host + "\r\n", "\r\n");
    Utf8OfAscii(RequestText(host, path));
  }

  /** The string `send_request` builds, one `+=` at a time. */
  method BuildRequest(host: string, path: string) returns (request: string)
    ensures request == "GET " + path + " HTTP/1.0\r\nHost: " + host + "\r\n\r\n"
    ensures request == RequestText(host, path)
  {
    request := "GET " + path + " HTTP/1.0\r\n";
    request := request + "Host: " + host + "\r\n";
    request := request + "\r\n";
  }

  /** The request is framed as HTTP/1.0 demands: split once at the blank
      line, it gives the request line and the Host header, and an empty body. */
  lemma RequestFraming(host: string, path: string)
    requires NoLineFeed(host) && NoLineFeed(path)
    ensures SplitOnce(RequestText(host, path), "\r\n\r\n")
         == Halves("GET " + path + " HTTP/1.0\r\nHost: " + host, Some(""))
  {
    var first := "GET " + path + " HTTP/1.0\r\n";
    var second := "Host: " + host + "\r\n";
    var text := RequestText(host, path);
    var n := |text| - 4;
    assert text == first + second + "\r\n";
    LineFeedsOfRequest(host, path);
    assert OccursAt(text, "\r\n\r\n", n);
    forall k | 0 <= k < n ensures !OccursAt(text, "\r\n\r\n", k) {
      var w := text[k..k + 4];
      assert w[1] == text[k + 1] && w[3] == text[k + 3];
      assert text[k + 1] != '\n' || text[k + 3] != '\n';
    }
    FindIsFirst(text, "\r\n\r\n", n);
    assert text[..n] == "GET " + path + " HTTP/1.0\r\nHost: " + host;
    assert text[n + 4..] == "";
  }

  /** The only line feeds of a request are those of its three CRLFs. */
  lemma LineFeedsOfRequest(host: string, path: string)
    requires NoLineFeed(host) && NoLineFeed(path)
    ensures var text := RequestText(host, path);
            forall i :: 0 <= i < |text| && text[i] == '\n' ==>
              i == |path| + 14 || i == |text| - 3 || i == |text| - 1
  {
    var text := RequestText(host, path);
    var first := "GET " + path + " HTTP/1.0\r\n";
    var second := "Host: " + host + "\r\n";
    assert text == first + second + "\r\n";
  }

  lemma FindIsFirst(s: string, pat: string, n: nat)
    requires OccursAt(s, pat, n)
    requires forall k :: 0 <= k < n ==> !OccursAt(s, pat, k)
    ensures Find(s, pat) == Some(n)
  {
  }

  // ---------------------------------------------------------------------
  // The socket

  /** A connected socket: the bytes written to it so far, and the chunks the
      peer has written that have not been read yet. */
  class Socket {
    var sent: seq<byte>
    var incoming: seq<seq<byte>>

    constructor ()
      ensures sent == [] && incoming == []
    {
      sent := [];
      incoming := [];
    }

    /** `sock.sendall(data)` */
    method SendAll(data: seq<byte>)
      modifies this
      ensures sent == old(sent) + data && incoming == old(incoming)
    {
      sent := sent + data;
    }

    /** The peer writes its reply. */
    method Deliver(chunks: seq<seq<byte>>)
      modifies this
      ensures incoming == old(incoming) + chunks && sent == old(sent)
    {
      incoming := incoming + chunks;
    }

    /** `sock.recv(4096)`: the next chunk; the empty chunk once the peer has closed. */
    method Recv() returns (data: seq<byte>)
      modifies this
      ensures old(incoming) == [] ==> data == [] && incoming == []
      ensures old(incoming) != [] ==> data == old(incoming)[0] && incoming == old(incoming)[1..]
      ensures sent == old(sent)
    {
      if incoming == [] {
        data := [];
      } else {
        data := incoming[0];
        incoming := incoming[1..];
      }
    }
  }

  /** `send_request(sock, host, path)` */
  method SendRequest(sock: Socket, host: string, path: string)
    modifies sock
    ensures sock.sent == old(sock.sent) + RequestBytes(host, path)
    ensures sock.incoming == old(sock.incoming)
  {
    var request := BuildRequest(host, path);
    sock.SendAll(Utf8Encode(request));
  }

  /** All bytes that reading chunk after chunk yields before the first empty read. */
  function Received(chunks: seq<seq<byte>>): (r: seq<byte>)
    ensures r <= Flatten(chunks)
  {
    if chunks == [] || chunks[0] == [] then [] else chunks[0] + Received(chunks[1..])
  }

  function Flatten(chunks: seq<seq<byte>>): seq<byte> {
    if chunks == [] then [] else chunks[0] + Flatten(chunks[1..])
  }

  /** Non-empty chunks are all kept, in order, and the first empty read ends
      the response: nothing after it is read. */
  lemma {:induction false} ReceivedOfNonEmpty(chunks: seq<seq<byte>>, rest: seq<seq<byte>>)
    requires forall i :: 0 <= i < |chunks| ==> chunks[i] != []
    ensures Received(chunks + rest) == Flatten(chunks) + Received(rest)
    ensures Received(chunks + [[]] + rest) == Flatten(chunks)
  {
    if chunks == [] {
      assert chunks + rest == rest;
      assert chunks + [[]] + rest == [[]] + rest;
    } else {
      assert (chunks + rest)[1..] == chunks[1..] + rest;
      assert (chunks + [[]] + rest)[1..] == chunks[1..] + [[]] + rest;
      ReceivedOfNonEmpty(chunks[1..], rest);
    }
  }

  /** `receive_response(sock)`: read until the peer closes, growing the buffer. */
  method ReceiveResponse(sock: Socket) returns (response: seq<byte>)
    modifies sock
    ensures response == Received(old(sock.incoming))
    ensures sock.sent == old(sock.sent)
  {
    response := [];
    while true
      invariant response + Received(sock.incoming) == Received(old(sock.incoming))
      invariant sock.sent == old(sock.sent)
      decreases |sock.incoming|
    {
      var data := sock.Recv();
      if data == [] {
        break;
      }
      response := response + data;
    }
  }
}
