// The table of common/URI.cpp:11-56.  The parser and printer laws hold for every such table, so they
// take it as a parameter; this is the one a Uri is built with.
module WellKnownPorts {
  import opened Bytes
  import opened UriSpec

  const SCHEME_TO_PORT: PortTable := map[
    Ascii("acap") := 674, Ascii("afp") := 548, Ascii("dict") := 2628, Ascii("dns") := 53,
    Ascii("ftp") := 21, Ascii("git") := 9418, Ascii("gopher") := 70, Ascii("http") := 80,
    Ascii("https") := 443, Ascii("imap") := 143, Ascii("ipp") := 631, Ascii("ipps") := 631,
    Ascii("irc") := 194, Ascii("ircs") := 6697, Ascii("ldap") := 389, Ascii("ldaps") := 636,
    Ascii("mms") := 1755, Ascii("msrp") := 2855, Ascii("mtqp") := 1038, Ascii("nfs") := 111,
    Ascii("nntp") := 119, Ascii("nntps") := 563, Ascii("pop") := 110, Ascii("prospero") := 1525,
    Ascii("redis") := 6379, Ascii("rsync") := 873, Ascii("rtmp") := 1935, Ascii("rtsp") := 554,
    Ascii("rtsps") := 322, Ascii("rtspu") := 5005, Ascii("sftp") := 22, Ascii("smb") := 445,
    Ascii("snmp") := 161, Ascii("ssh") := 22, Ascii("svn") := 3690, Ascii("sip") := 5060,
    Ascii("sips") := 5061, Ascii("telnet") := 23, Ascii("ventrilo") := 3784, Ascii("vnc") := 5900,
    Ascii("wais") := 210, Ascii("ws") := 80, Ascii("wss") := 443, Ascii("xmpp") := 5222
  ]
}
