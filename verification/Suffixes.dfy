/** The built-in public suffixes, in the order and the groups they are listed. */
module Suffixes {
  import opened Strings

  const UNITED_KINGDOM := [
    "co.uk", "org.uk", "me.uk", "ltd.uk", "plc.uk", "net.uk", "sch.uk", "ac.uk", "gov.uk", "nhs.uk"
  ]

  const AUSTRALIA_JAPAN := [
    "com.au", "net.au", "org.au", "edu.au", "gov.au", "id.au", "co.jp", "ne.jp", "or.jp", "go.jp", "ac.jp"
  ]

  const BRAZIL_INDIA := [
    "com.br", "net.br", "org.br", "gov.br", "co.in", "net.in", "org.in", "gen.in", "firm.in", "gov.in"
  ]

  const NEW_ZEALAND_SOUTH_AFRICA_KOREA := [
    "co.nz", "net.nz", "org.nz", "govt.nz", "ac.nz", "co.za", "org.za", "net.za", "gov.za", "co.kr", "or.kr",
    "go.kr"
  ]

  const CHINA_AND_OTHERS := [
    "com.cn", "net.cn", "org.cn", "gov.cn", "com.mx", "com.tr", "com.sg", "com.hk", "com.tw", "co.il",
    "com.ar", "com.pl"
  ]

  const STATIC_HOSTING := [
    "vercel.app", "now.sh", "netlify.app", "netlify.com", "pages.dev", "workers.dev", "github.io",
    "gitlab.io", "bitbucket.io", "surge.sh", "web.app"
  ]

  const MORE_STATIC_HOSTING := [
    "firebaseapp.com", "onrender.com", "fly.dev", "glitch.me", "replit.app", "repl.co", "deno.dev",
    "vercel.sh", "azurestaticapps.net", "amplifyapp.com", "cloudfront.net"
  ]

  const APPLICATION_PLATFORMS := [
    "herokuapp.com", "appspot.com", "azurewebsites.net", "cloudapp.net", "elasticbeanstalk.com", "run.app",
    "ondigitalocean.app", "railway.app", "up.railway.app", "web.core.windows.net", "blob.core.windows.net"
  ]

  const TUNNELS_AND_SITES := [
    "ngrok.io", "ngrok-free.app", "ngrok.app", "trycloudflare.com", "loca.lt", "blogspot.com",
    "wordpress.com", "wixsite.com", "myshopify.com", "tumblr.com", "webflow.io", "carrd.co", "notion.site"
  ]

  const MULTI_PART_SUFFIXES :=
    UNITED_KINGDOM + AUSTRALIA_JAPAN + BRAZIL_INDIA + NEW_ZEALAND_SOUTH_AFRICA_KOREA + CHINA_AND_OTHERS

  const PRIVATE_SUFFIXES := STATIC_HOSTING + MORE_STATIC_HOSTING + APPLICATION_PLATFORMS + TUNNELS_AND_SITES

  const SUFFIXES := MULTI_PART_SUFFIXES + PRIVATE_SUFFIXES

  // --- No listed suffix ends in a number ------------------------------------------------

  predicate EndsInLetter(s: string) {
    s != "" && IsAlpha(s[|s| - 1])
  }

  lemma UnitedKingdomEndInLetters()
    ensures forall s :: s in UNITED_KINGDOM ==> EndsInLetter(s)
  {
  }

  lemma AustraliaJapanEndInLetters()
    ensures forall s :: s in AUSTRALIA_JAPAN ==> EndsInLetter(s)
  {
  }

  lemma BrazilIndiaEndInLetters()
    ensures forall s :: s in BRAZIL_INDIA ==> EndsInLetter(s)
  {
  }

  lemma NewZealandSouthAfricaKoreaEndInLetters()
    ensures forall s :: s in NEW_ZEALAND_SOUTH_AFRICA_KOREA ==> EndsInLetter(s)
  {
  }

  lemma ChinaAndOthersEndInLetters()
    ensures forall s :: s in CHINA_AND_OTHERS ==> EndsInLetter(s)
  {
  }

  lemma StaticHostingEndInLetters()
    ensures forall s :: s in STATIC_HOSTING ==> EndsInLetter(s)
  {
  }

  lemma MoreStaticHostingEndInLetters()
    ensures forall s :: s in MORE_STATIC_HOSTING ==> EndsInLetter(s)
  {
  }

  lemma ApplicationPlatformsEndInLetters()
    ensures forall s :: s in APPLICATION_PLATFORMS ==> EndsInLetter(s)
  {
  }

  lemma TunnelsAndSitesEndInLetters()
    ensures forall s :: s in TUNNELS_AND_SITES ==> EndsInLetter(s)
  {
  }

  lemma SuffixesEndInLetters()
    ensures forall s :: s in SUFFIXES ==> EndsInLetter(s)
  {
    UnitedKingdomEndInLetters();
    AustraliaJapanEndInLetters();
    BrazilIndiaEndInLetters();
    NewZealandSouthAfricaKoreaEndInLetters();
    ChinaAndOthersEndInLetters();
    StaticHostingEndInLetters();
    MoreStaticHostingEndInLetters();
    ApplicationPlatformsEndInLetters();
    TunnelsAndSitesEndInLetters();
  }

  // --- No four-letter name under com is listed --------------------------------------------

  predicate FourLetterCom(s: string) {
    |s| == 8 && s[4] == '.' && s[5] == 'c'
  }

  lemma MultiPartFourLetters()
    ensures forall s :: s in MULTI_PART_SUFFIXES ==> !FourLetterCom(s)
  {
    assert forall s :: s in UNITED_KINGDOM ==> !FourLetterCom(s);
    assert forall s :: s in AUSTRALIA_JAPAN ==> !FourLetterCom(s);
    assert forall s :: s in BRAZIL_INDIA ==> !FourLetterCom(s);
    assert forall s :: s in NEW_ZEALAND_SOUTH_AFRICA_KOREA ==> !FourLetterCom(s);
    assert forall s :: s in CHINA_AND_OTHERS ==> !FourLetterCom(s);
  }

  lemma StaticHostingFourLetters()
    ensures forall s :: s in STATIC_HOSTING + MORE_STATIC_HOSTING ==> !FourLetterCom(s)
  {
    assert forall s :: s in STATIC_HOSTING ==> !FourLetterCom(s);
    assert forall s :: s in MORE_STATIC_HOSTING ==> !FourLetterCom(s);
  }

  lemma OtherHostingFourLetters()
    ensures forall s :: s in APPLICATION_PLATFORMS + TUNNELS_AND_SITES ==> !FourLetterCom(s)
  {
    assert forall s :: s in APPLICATION_PLATFORMS ==> !FourLetterCom(s);
    assert forall s :: s in TUNNELS_AND_SITES ==> !FourLetterCom(s);
  }

  lemma NoFourLetterCom()
    ensures forall s :: s in SUFFIXES ==> !FourLetterCom(s)
  {
    MultiPartFourLetters();
    StaticHostingFourLetters();
    OtherHostingFourLetters();
  }
}
